/** The hero picture grid of the home page (`HeroImageManager` in
    assets/main.js): five grid slots, each showing pictures of one category.
    Each category has a list of picture paths and a rotation index. */
module Hero {
  import opened Wrappers

  /** The five picture categories, the keys of `imageFolders`. */
  datatype Category = CommunityDevelopment | Education | Healthcare | Environment | Empowerment {
    function Name(): string {
      match this
      case CommunityDevelopment => "community-development"
      case Education => "education"
      case Healthcare => "healthcare"
      case Environment => "environment"
      case Empowerment => "empowerment"
    }
  }

  /** The category a key names, if any: the lookup `this.imageFolders[key]`
      finds a list only for these five names. */
  function CategoryNamed(key: string): (r: Option<Category>)
    ensures r.Some? ==> r.value.Name() == key
    ensures r.None? ==> forall c: Category :: c.Name() != key
  {
    if key == "community-development" then Some(CommunityDevelopment)
    else if key == "education" then Some(Education)
    else if key == "healthcare" then Some(Healthcare)
    else if key == "environment" then Some(Environment)
    else if key == "empowerment" then Some(Empowerment)
    else None
  }

  /** The five grid slots, the keys of `gridItems`. */
  datatype Slot = MainImage | SecondaryImage | AccentImage | FeatureImage | SmallImage {
    /** The CSS class that locates the slot in the page. */
    function ClassName(): string {
      match this
      case MainImage => "main-image"
      case SecondaryImage => "secondary-image"
      case AccentImage => "accent-image"
      case FeatureImage => "feature-image"
      case SmallImage => "small-image"
    }

    /** The category the slot is meant to show (`originalAssignments`). */
    function OriginalCategory(): Category {
      match this
      case MainImage => CommunityDevelopment
      case SecondaryImage => Education
      case AccentImage => Healthcare
      case FeatureImage => Environment
      case SmallImage => Empowerment
    }
  }

  const AllCategories: set<Category> := {CommunityDevelopment, Education, Healthcare, Environment, Empowerment}
  const AllSlots: set<Slot> := {MainImage, SecondaryImage, AccentImage, FeatureImage, SmallImage}

  lemma EveryCategoryListed()
    ensures forall c: Category :: c in AllCategories
  {
    forall c: Category ensures c in AllCategories {
      match c
      case CommunityDevelopment =>
      case Education =>
      case Healthcare =>
      case Environment =>
      case Empowerment =>
    }
  }

  /** The slots in the order `Object.keys(this.gridItems)` visits them. */
  const Slots: seq<Slot> := [MainImage, SecondaryImage, AccentImage, FeatureImage, SmallImage]

  /** Where a slot stands in that order. */
  function SlotIndex(s: Slot): (k: nat)
    ensures k < |Slots| && Slots[k] == s
  {
    match s
    case MainImage => 0
    case SecondaryImage => 1
    case AccentImage => 2
    case FeatureImage => 3
    case SmallImage => 4
  }

  /** What a slot's <img> shows: one of the category's pictures, or the
      category's remote fallback picture (whose URL carries a time stamp and
      is not modelled further). */
  datatype Picture = Image(path: string) | Fallback(category: Category)

  predicate TotalOn<V>(m: map<Category, V>) {
    forall c: Category :: c in m
  }

  /** The assignment `reassignGridItems` computes from the picture lists:
      a slot keeps its own category when that category has pictures and
      falls back to education otherwise. */
  function Reassigned(folders: map<Category, seq<string>>): (grid: map<Slot, Category>)
    requires TotalOn(folders)
    ensures forall s: Slot :: s in grid
  {
    map s: Slot :: if |folders[s.OriginalCategory()]| > 0 then s.OriginalCategory() else Education
  }

  /** The assignment after the first n slots, in order, have been
      reassigned: those fall back to education when their category has no
      pictures, the others keep their own category. */
  function PartlyReassigned(folders: map<Category, seq<string>>, n: nat): (grid: map<Slot, Category>)
    requires TotalOn(folders)
    ensures forall s: Slot :: s in grid
  {
    map s: Slot :: if SlotIndex(s) < n && |folders[s.OriginalCategory()]| == 0 then Education else s.OriginalCategory()
  }

  /** Reassigning slot n takes n reassigned slots to n + 1. */
  lemma ReassignStep(folders: map<Category, seq<string>>, n: nat)
    requires TotalOn(folders) && n < |Slots|
    ensures var before := PartlyReassigned(folders, n);
            var slot := Slots[n];
            PartlyReassigned(folders, n + 1)
            == if |folders[before[slot]]| == 0 then before[slot := Education] else before
  {
    var before := PartlyReassigned(folders, n);
    var slot := Slots[n];
    assert SlotIndex(slot) == n;
    assert before[slot] == slot.OriginalCategory();
    var after := if |folders[before[slot]]| == 0 then before[slot := Education] else before;
    forall s: Slot ensures PartlyReassigned(folders, n + 1)[s] == after[s] {
      if s != slot {
        assert SlotIndex(s) != n;
      }
    }
  }

  /** Once every slot is reassigned the grid is `Reassigned`. */
  lemma PartlyReassignedAll(folders: map<Category, seq<string>>)
    requires TotalOn(folders)
    ensures PartlyReassigned(folders, |Slots|) == Reassigned(folders)
  {
  }

  /** The loop of `reassignGridItems`: the slots in order, each sent to
      education when its category has no pictures. */
  method ReassignedGrid(folders: map<Category, seq<string>>) returns (grid: map<Slot, Category>)
    requires TotalOn(folders)
    ensures grid == Reassigned(folders)
  {
    grid := map s: Slot :: s.OriginalCategory();
    var i := 0;
    while i < |Slots|
      invariant 0 <= i <= |Slots|
      invariant grid == PartlyReassigned(folders, i)
    {
      var slot := Slots[i];
      ReassignStep(folders, i);
      if |folders[grid[slot]]| == 0 {
        grid := grid[slot := Education];
      }
      i := i + 1;
    }
    PartlyReassignedAll(folders);
  }

  /** The number of the first n slots that are present in the page and
      assigned to category c. */
  function Visits(grid: map<Slot, Category>, present: seq<bool>, c: Category, n: nat): nat
    requires n <= |present| && n <= |Slots| && forall s: Slot :: s in grid
  {
    if n == 0 then 0
    else Visits(grid, present, c, n - 1) + (if present[n - 1] && grid[Slots[n - 1]] == c then 1 else 0)
  }

  /** One slot's move: when it is present and its category has pictures,
      that category's index moves on by one, wrapping to 0. */
  function Step(folders: map<Category, seq<string>>, idx: map<Category, int>, c: Category, present: bool): (r: map<Category, int>)
    requires TotalOn(folders) && TotalOn(idx)
    ensures TotalOn(r)
  {
    if present && |folders[c]| > 0 then idx[c := (idx[c] + 1) % |folders[c]|] else idx
  }

  /** The indices after the first n slots have moved on from `base`, one
      slot after the other. */
  function Advanced(folders: map<Category, seq<string>>, base: map<Category, int>, grid: map<Slot, Category>,
                    present: seq<bool>, n: nat): (r: map<Category, int>)
    requires TotalOn(folders) && TotalOn(base) && forall s: Slot :: s in grid
    requires n <= |present| && n <= |Slots|
    ensures TotalOn(r)
  {
    if n == 0 then base
    else Step(folders, Advanced(folders, base, grid, present, n - 1), grid[Slots[n - 1]], present[n - 1])
  }

  /** Every category has a picture list and an index, and each index is 0
      or points into its list. */
  predicate InRange(folders: map<Category, seq<string>>, idx: map<Category, int>) {
    TotalOn(folders) && TotalOn(idx) && forall c: Category :: idx[c] == 0 || 0 <= idx[c] < |folders[c]|
  }

  /** Moving on keeps every index 0 or inside its list. */
  lemma {:induction false} AdvancedInRange(folders: map<Category, seq<string>>, base: map<Category, int>,
                                           grid: map<Slot, Category>, present: seq<bool>, n: nat)
    requires InRange(folders, base) && forall s: Slot :: s in grid
    requires n <= |present| && n <= |Slots|
    ensures InRange(folders, Advanced(folders, base, grid, present, n))
  {
    if n > 0 {
      AdvancedInRange(folders, base, grid, present, n - 1);
    }
  }

  /** The picture slot k shows after its move in a round started from the
      indices `base`: the fallback when its category has no pictures or the
      picture fails to load, otherwise the picture at the index the earlier
      slots left. */
  function PictureAt(folders: map<Category, seq<string>>, base: map<Category, int>, grid: map<Slot, Category>,
                     present: seq<bool>, loads: seq<bool>, k: nat): Picture
    requires InRange(folders, base) && forall s: Slot :: s in grid
    requires |present| == |Slots| && |loads| == |Slots| && k < |Slots|
  {
    var c := grid[Slots[k]];
    AdvancedInRange(folders, base, grid, present, k);
    var idx := Advanced(folders, base, grid, present, k);
    if |folders[c]| == 0 || !loads[k] then Fallback(c) else Image(folders[c][idx[c]])
  }

  /** What the slots show after the first n slots of a round have moved,
      starting from what they showed before: a present slot shows its new
      picture, a missing one is left alone. */
  function Shown(folders: map<Category, seq<string>>, base: map<Category, int>, grid: map<Slot, Category>,
                 present: seq<bool>, loads: seq<bool>, before: map<Slot, Picture>, n: nat): map<Slot, Picture>
    requires InRange(folders, base) && forall s: Slot :: s in grid
    requires |present| == |Slots| && |loads| == |Slots| && n <= |Slots|
  {
    if n == 0 then before
    else
      var s := Shown(folders, base, grid, present, loads, before, n - 1);
      if present[n - 1] then s[Slots[n - 1] := PictureAt(folders, base, grid, present, loads, n - 1)] else s
  }

  lemma SlotsDistinct(i: nat, j: nat)
    requires i < j < |Slots|
    ensures Slots[i] != Slots[j]
  {
  }

  /** Each slot is visited once: after n slots, a present slot among them
      shows its own new picture, and every other slot shows what it showed
      before (or still nothing). */
  lemma {:induction false} ShownAt(folders: map<Category, seq<string>>, base: map<Category, int>, grid: map<Slot, Category>,
                                   present: seq<bool>, loads: seq<bool>, before: map<Slot, Picture>, n: nat, k: nat)
    requires InRange(folders, base) && forall s: Slot :: s in grid
    requires |present| == |Slots| && |loads| == |Slots| && n <= |Slots| && k < |Slots|
    ensures var r := Shown(folders, base, grid, present, loads, before, n);
            if k < n && present[k] then Slots[k] in r && r[Slots[k]] == PictureAt(folders, base, grid, present, loads, k)
            else (Slots[k] in r <==> Slots[k] in before) && (Slots[k] in before ==> r[Slots[k]] == before[Slots[k]])
  {
    if n > 0 {
      ShownAt(folders, base, grid, present, loads, before, n - 1, k);
      if k < n - 1 {
        SlotsDistinct(k, n - 1);
      } else if k > n - 1 {
        SlotsDistinct(n - 1, k);
      }
    }
  }

  /** After a whole round, a present slot whose category c has pictures and
      whose picture loads shows picture number (index + visits) mod length
      of c, where the visits are the present slots of c before it. */
  lemma ShownAfterRound(folders: map<Category, seq<string>>, base: map<Category, int>, grid: map<Slot, Category>,
                        present: seq<bool>, loads: seq<bool>, before: map<Slot, Picture>, k: nat)
    requires InRange(folders, base) && forall s: Slot :: s in grid
    requires |present| == |Slots| && |loads| == |Slots| && k < |Slots| && present[k]
    ensures var r := Shown(folders, base, grid, present, loads, before, |Slots|);
            var c := grid[Slots[k]];
            && Slots[k] in r
            && r[Slots[k]] == if |folders[c]| == 0 || !loads[k] then Fallback(c)
                              else Image(folders[c][(base[c] + Visits(grid, present, c, k)) % |folders[c]|])
  {
    ShownAt(folders, base, grid, present, loads, before, |Slots|, k);
    AdvancedCounts(folders, base, grid, present, k, grid[Slots[k]]);
  }

  /** The closed form of the rotation: after n slots, an index with
      pictures has moved on once per present slot of its category among
      the first n, modulo the length of its list, starting from an index
      that is 0 or inside its list. */
  lemma {:induction false} AdvancedCounts(folders: map<Category, seq<string>>, base: map<Category, int>,
                                          grid: map<Slot, Category>, present: seq<bool>, n: nat, c: Category)
    requires TotalOn(folders) && TotalOn(base) && forall s: Slot :: s in grid
    requires n <= |present| && n <= |Slots|
    requires base[c] == 0 || 0 <= base[c] < |folders[c]|
    ensures Advanced(folders, base, grid, present, n)[c]
            == if |folders[c]| == 0 then base[c] else (base[c] + Visits(grid, present, c, n)) % |folders[c]|
  {
    var len := |folders[c]|;
    if n == 0 {
      if len > 0 {
        ModUnique(base[c], 0, base[c], len);
      }
    } else {
      AdvancedCounts(folders, base, grid, present, n - 1, c);
      var v := Visits(grid, present, c, n - 1);
      if len > 0 && present[n - 1] && grid[Slots[n - 1]] == c {
        ModStep(base[c] + v, len);
      }
    }
  }

  /** Arithmetic on the rotation index. */
  lemma MulAtLeast(d: int, len: int)
    requires d >= 1 && len > 0
    ensures d * len >= len
    decreases d
  {
    if d > 1 {
      MulAtLeast(d - 1, len);
      assert d * len == (d - 1) * len + len;
    }
  }
  lemma ModUnique(a: int, q: int, r: int, len: int)
    requires len > 0 && 0 <= r < len && a == q * len + r
    ensures a % len == r
  {
    var q', r' := a / len, a % len;
    assert a == q' * len + r';
    if q > q' {
      MulAtLeast(q - q', len);
    } else if q < q' {
      MulAtLeast(q' - q, len);
    }
  }
  lemma ModStep(i: int, len: int)
    requires len > 0
    ensures (i % len + 1) % len == (i + 1) % len
  {
    var q, r := i / len, i % len;
    if r + 1 == len {
      assert i + 1 == (q + 1) * len;
      ModUnique(i + 1, q + 1, 0, len);
      ModUnique(r + 1, 1, 0, len);
    } else {
      ModUnique(i + 1, q, r + 1, len);
      ModUnique(r + 1, 0, r + 1, len);
    }
  }

  class HeroImageManager {
    var imageFolders: map<Category, seq<string>>
    var currentImageIndex: map<Category, int>
    var gridItems: map<Slot, Category>
    var shuffleInterval: int
    var shown: map<Slot, Picture>

    /** Every category has a picture list and an index, every slot a
        category, and an index is 0 or points into its list. */
    predicate Valid()
      reads this
    {
      InRange(imageFolders, currentImageIndex) && forall s: Slot :: s in gridItems
    }

    static const EducationImages: seq<string> := [
      "assets/images/education/e1.jpg",
      "assets/images/education/e2.jpg",
      "assets/images/education/e3.jpg",
      "assets/images/education/e4.jpg"
    ]

    /** `new HeroImageManager()`: `setupImageArrays` (four education
        pictures, the other lists empty, every index 0), `reassignGridItems`,
        which sends every slot to education, and `loadInitialImages`, one
        round over the slots. `present` and `loads` say which slots are in
        the page and which pictures load. */
    constructor (present: seq<bool>, loads: seq<bool>)
      requires |present| == |Slots| && |loads| == |Slots|
      ensures Valid()
      ensures imageFolders == InitialFolders() && gridItems == InitialGrid()
      ensures forall c: Category :: c != Education ==> currentImageIndex[c] == 0
      ensures currentImageIndex[Education] == Visits(gridItems, present, Education, |Slots|) % |EducationImages|
      ensures shown == Shown(InitialFolders(), InitialIndex(), gridItems, present, loads, map[], |Slots|)
      ensures shuffleInterval == 30000
    {
      imageFolders := InitialFolders();
      currentImageIndex := InitialIndex();
      gridItems := InitialGrid();
      shuffleInterval := 30000;
      shown := map[];
      InitialState();
      new;
      ReassignGridItems();
      ghost var start := currentImageIndex;
      RotateAllImages(present, loads);
      FirstRound(imageFolders, start, currentImageIndex, gridItems, present);
    }

    static function InitialFolders(): map<Category, seq<string>> {
      map c | c in AllCategories :: if c == Education then EducationImages else []
    }

    static function InitialIndex(): map<Category, int> {
      map c | c in AllCategories :: 0
    }

    /** Every slot on education. */
    static function InitialGrid(): map<Slot, Category> {
      map s | s in AllSlots :: Education
    }

    /** The indices after the first round from the initial state: only
        education has moved, once per present slot. */
    static lemma FirstRound(folders: map<Category, seq<string>>, before: map<Category, int>, after: map<Category, int>,
                            grid: map<Slot, Category>, present: seq<bool>)
      requires folders == InitialFolders() && before == InitialIndex()
      requires |present| == |Slots| && forall s: Slot :: s in grid
      requires InRange(folders, before) && after == Advanced(folders, before, grid, present, |Slots|)
      ensures forall c: Category :: c != Education ==> after[c] == 0
      ensures after[Education] == Visits(grid, present, Education, |Slots|) % |EducationImages|
    {
      InitialState();
      EveryCategoryListed();
      forall c: Category
        ensures after[c] == if |folders[c]| == 0 then before[c]
                            else (before[c] + Visits(grid, present, c, |Slots|)) % |folders[c]|
      {
        AdvancedCounts(folders, before, grid, present, |Slots|, c);
      }
    }

    /** The lists and indices `setupImageArrays` leaves. */
    static lemma InitialState()
      ensures InRange(InitialFolders(), InitialIndex())
      ensures InitialFolders()[Education] == EducationImages && |EducationImages| == 4
      ensures forall c: Category :: InitialIndex()[c] == 0
      ensures (forall s: Slot :: s in InitialGrid()) && Reassigned(InitialFolders()) == InitialGrid()
    {
      EveryCategoryListed();
      forall s: Slot ensures s in AllSlots {
        assert s == Slots[SlotIndex(s)];
      }
    }

    /** `updateGridItemImage(slot, category)`. When the slot or its <img> is
        missing from the page (`present` false) nothing happens. An empty list
        shows the fallback and leaves the index alone. Otherwise the slot
        shows the picture at the index (or the fallback when it fails to
        load) and the index moves on by one, wrapping to 0. */
    method UpdateGridItemImage(slot: Slot, category: Category, present: bool, loadOk: bool)
      requires Valid()
      modifies this
      ensures Valid()
      ensures imageFolders == old(imageFolders) && gridItems == old(gridItems)
      ensures shuffleInterval == old(shuffleInterval)
      ensures !present || |imageFolders[category]| == 0 ==> currentImageIndex == old(currentImageIndex)
      ensures present && |imageFolders[category]| > 0 ==>
                currentImageIndex == old(currentImageIndex)[category := (old(currentImageIndex[category]) + 1) % |imageFolders[category]|]
      ensures !present ==> shown == old(shown)
      ensures present ==>
                shown == old(shown)[slot := if |imageFolders[category]| == 0 || !loadOk then Fallback(category)
                                            else Image(imageFolders[category][old(currentImageIndex[category])])]
    {
      if !present {
        return;
      }
      var images := imageFolders[category];
      if |images| == 0 {
        shown := shown[slot := Fallback(category)];
        return;
      }
      var currentIndex := currentImageIndex[category];
      var imagePath := images[currentIndex];
      shown := shown[slot := if loadOk then Image(imagePath) else Fallback(category)];
      currentImageIndex := currentImageIndex[category := (currentIndex + 1) % |images|];
    }

    /** `rotateAllImages()` (and `loadInitialImages`, `shuffleImages`, which do
        the same): every slot, in order, moves to its category's next picture.
        Each category's index ends up advanced once per present slot showing
        it, modulo the length of its list, and the slots show what `Shown`
        gives for the whole round. */
    method RotateAllImages(present: seq<bool>, loads: seq<bool>)
      requires Valid() && |present| == |Slots| && |loads| == |Slots|
      modifies this
      ensures Valid()
      ensures imageFolders == old(imageFolders) && gridItems == old(gridItems)
      ensures shuffleInterval == old(shuffleInterval)
      ensures forall c: Category ::
                currentImageIndex[c] == if |imageFolders[c]| == 0 then old(currentImageIndex[c])
                                        else (old(currentImageIndex[c]) + Visits(gridItems, present, c, |Slots|)) % |imageFolders[c]|
      ensures currentImageIndex == Advanced(imageFolders, old(currentImageIndex), gridItems, present, |Slots|)
      ensures shown == Shown(imageFolders, old(currentImageIndex), gridItems, present, loads, old(shown), |Slots|)
    {
      ghost var base := currentImageIndex;
      ghost var before := shown;
      var i := 0;
      while i < |Slots|
        invariant 0 <= i <= |Slots|
        invariant Valid()
        invariant imageFolders == old(imageFolders) && gridItems == old(gridItems)
        invariant shuffleInterval == old(shuffleInterval)
        invariant currentImageIndex == Advanced(imageFolders, base, gridItems, present, i)
        invariant shown == Shown(imageFolders, base, gridItems, present, loads, before, i)
      {
        RotateSlot(i, present, loads, base, before);
        i := i + 1;
      }
      forall c: Category
        ensures currentImageIndex[c] == if |imageFolders[c]| == 0 then base[c]
                                        else (base[c] + Visits(gridItems, present, c, |Slots|)) % |imageFolders[c]|
      {
        AdvancedCounts(imageFolders, base, gridItems, present, |Slots|, c);
      }
    }

    /** The i-th step of `rotateAllImages`: slot i moves on, which takes the
        indices and the shown pictures from i slots done to i + 1. */
    method RotateSlot(i: nat, present: seq<bool>, loads: seq<bool>, ghost base: map<Category, int>,
                      ghost before: map<Slot, Picture>)
      requires Valid() && InRange(imageFolders, base) && i < |Slots| && |present| == |Slots| && |loads| == |Slots|
      requires currentImageIndex == Advanced(imageFolders, base, gridItems, present, i)
      requires shown == Shown(imageFolders, base, gridItems, present, loads, before, i)
      modifies this
      ensures Valid()
      ensures imageFolders == old(imageFolders) && gridItems == old(gridItems)
      ensures shuffleInterval == old(shuffleInterval)
      ensures currentImageIndex == Advanced(imageFolders, base, gridItems, present, i + 1)
      ensures shown == Shown(imageFolders, base, gridItems, present, loads, before, i + 1)
    {
      UpdateGridItemImage(Slots[i], gridItems[Slots[i]], present[i], loads[i]);
    }

    /** `addImages(category, images)`: a known category gets the pictures
        appended; its index stays where it was. Any other key is ignored. */
    method AddImages(category: string, images: seq<string>)
      requires Valid()
      modifies this
      ensures Valid()
      ensures match CategoryNamed(category)
              case Some(c) => imageFolders == old(imageFolders)[c := old(imageFolders[c]) + images]
              case None => imageFolders == old(imageFolders)
      ensures currentImageIndex == old(currentImageIndex) && gridItems == old(gridItems)
      ensures shown == old(shown) && shuffleInterval == old(shuffleInterval)
    {
      var key := CategoryNamed(category);
      if key.Some? {
        imageFolders := imageFolders[key.value := imageFolders[key.value] + images];
      }
    }

    /** `replaceImages(category, images)`: a known category gets the new list
        and index 0, and the slots are reassigned. Any other key is ignored. */
    method ReplaceImages(category: string, images: seq<string>)
      requires Valid()
      modifies this
      ensures Valid()
      ensures match CategoryNamed(category)
              case Some(c) =>
                && imageFolders == old(imageFolders)[c := images]
                && currentImageIndex == old(currentImageIndex)[c := 0]
                && gridItems == Reassigned(imageFolders)
              case None =>
                imageFolders == old(imageFolders) && currentImageIndex == old(currentImageIndex) && gridItems == old(gridItems)
      ensures shown == old(shown) && shuffleInterval == old(shuffleInterval)
    {
      var key := CategoryNamed(category);
      if key.Some? {
        imageFolders := imageFolders[key.value := images];
        currentImageIndex := currentImageIndex[key.value := 0];
        ReassignGridItems();
      }
    }

    /** `reassignGridItems()`: starting from the original assignment, every
        slot whose category has no pictures is sent to education. */
    method ReassignGridItems()
      requires TotalOn(imageFolders) && TotalOn(currentImageIndex)
      requires forall c: Category :: currentImageIndex[c] == 0 || 0 <= currentImageIndex[c] < |imageFolders[c]|
      modifies this
      ensures Valid()
      ensures gridItems == Reassigned(imageFolders)
      ensures imageFolders == old(imageFolders) && currentImageIndex == old(currentImageIndex)
      ensures shown == old(shown) && shuffleInterval == old(shuffleInterval)
    {
      var grid := ReassignedGrid(imageFolders);
      gridItems := grid;
    }

    /** `setShuffleInterval(ms)`: only the rotation period changes. */
    method SetShuffleInterval(milliseconds: int)
      modifies this
      ensures shuffleInterval == milliseconds
      ensures imageFolders == old(imageFolders) && currentImageIndex == old(currentImageIndex)
      ensures gridItems == old(gridItems) && shown == old(shown)
    {
      shuffleInterval := milliseconds;
    }
  }
}
