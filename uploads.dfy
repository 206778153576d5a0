/** Upload handling shared by the two admin servers (server/app.py and
    server/news_app.py): the image-extension check, `os.path.splitext`, and
    the loop that picks a filename not yet present in a directory. The
    directory is modelled as the set of names it already holds. */
module Uploads {
  import opened Strings

  const AllowedExtensions: set<string> := {"png", "jpg", "jpeg", "gif", "webp"}

  /** `filename.rsplit('.', 1)[1]`: the text after the last '.'. */
  function Extension(filename: string): string
    requires '.' in filename
  {
    filename[LastIndexOf(filename, '.') + 1..]
  }

  /** `allowed_file(filename)`. */
  predicate AllowedFile(filename: string) {
    '.' in filename && Lower(Extension(filename)) in AllowedExtensions
  }

  /** A '.' with none after it is the last one. */
  lemma LastDot(f: string, i: nat)
    requires i < |f| && f[i] == '.' && '.' !in f[i + 1..]
    ensures '.' in f && LastIndexOf(f, '.') == i
  {
  }

  /** A name is allowed exactly when it has a '.' after which no other '.'
      follows and the rest, lower-cased, is one of the five extensions. */
  lemma AllowedFileIff(f: string)
    ensures AllowedFile(f) <==>
              exists i :: 0 <= i < |f| && f[i] == '.' && '.' !in f[i + 1..] && Lower(f[i + 1..]) in AllowedExtensions
  {
    if exists i :: 0 <= i < |f| && f[i] == '.' && '.' !in f[i + 1..] && Lower(f[i + 1..]) in AllowedExtensions {
      var i :| 0 <= i < |f| && f[i] == '.' && '.' !in f[i + 1..] && Lower(f[i + 1..]) in AllowedExtensions;
      LastDot(f, i);
    }
  }

  /** Some character is not a '.'. */
  predicate HasNonDot(t: string) {
    exists i :: 0 <= i < |t| && t[i] != '.'
  }

  /** `os.path.splitext(p)`: the extension runs from the last '.' of the
      last path component, provided some character other than '.' comes
      before it in that component; otherwise there is none. */
  function SplitExt(p: string): (r: (string, string))
    ensures r.0 + r.1 == p
    ensures r.1 == "" || (r.1[0] == '.' && '.' !in r.1[1..] && '/' !in r.1)
    ensures '.' !in p ==> r.1 == ""
  {
    if '.' !in p then (p, "")
    else
      var d := LastIndexOf(p, '.');
      var start := if '/' in p then LastIndexOf(p, '/') + 1 else 0;
      if start <= d && HasNonDot(p[start..d]) then
        assert '/' !in p[d..];
        assert p[d..][1..] == p[d + 1..];
        (p[..d], p[d..])
      else (p, "")
  }

  /** `f"{base}-{i}{ext}"` for the parts of `filename`. */
  function Candidate(filename: string, k: nat): string {
    var parts := SplitExt(filename);
    parts.0 + "-" + NatToString(k) + parts.1
  }

  /** Distinct counters give distinct names, and none of them is the
      original name. */
  lemma CandidateDistinct(filename: string, a: nat, b: nat)
    ensures Candidate(filename, a) != filename
    ensures Candidate(filename, a) == Candidate(filename, b) ==> a == b
  {
    var parts := SplitExt(filename);
    var ca, cb := Candidate(filename, a), Candidate(filename, b);
    if ca == cb {
      var na, nb := NatToString(a), NatToString(b);
      var lo := |parts.0| + 1;
      assert |na| == |nb|;
      assert ca[lo..lo + |na|] == na;
      assert cb[lo..lo + |nb|] == nb;
      NatToStringInjective(a, b);
    }
  }

  /** `name` is the first of `filename`, `base-1ext`, `base-2ext`, ... that
      the directory does not hold. */
  ghost predicate FirstFree(name: string, filename: string, existing: set<string>) {
    && name !in existing
    && ((filename !in existing && name == filename)
        || (filename in existing
            && exists k: nat :: k >= 1 && name == Candidate(filename, k)
                                && forall j: nat :: 1 <= j < k ==> Candidate(filename, j) in existing))
  }

  /** There is only one first free name. */
  lemma FirstFreeUnique(a: string, b: string, filename: string, existing: set<string>)
    requires FirstFree(a, filename, existing) && FirstFree(b, filename, existing)
    ensures a == b
  {
    if filename in existing {
      var ka: nat :| ka >= 1 && a == Candidate(filename, ka)
                     && forall j: nat :: 1 <= j < ka ==> Candidate(filename, j) in existing;
      var kb: nat :| kb >= 1 && b == Candidate(filename, kb)
                     && forall j: nat :: 1 <= j < kb ==> Candidate(filename, j) in existing;
      if kb < ka {
        assert Candidate(filename, kb) in existing;
      }
    }
  }

  /** The `while os.path.exists(dest_path)` loop of the upload handler. */
  method UniqueFilename(filename: string, existing: set<string>) returns (name: string)
    ensures FirstFree(name, filename, existing)
  {
    name := filename;
    var i: nat := 1;
    ghost var tried: set<string> := {};
    while name in existing
      invariant i >= 1
      invariant i == 1 ==> name == filename && tried == {}
      invariant i > 1 ==> name == Candidate(filename, i - 1) && filename in existing
      invariant forall j: nat :: 1 <= j < i - 1 ==> Candidate(filename, j) in existing
      invariant tried <= existing && name !in tried
      invariant forall t :: t in tried ==> t == filename || exists j: nat :: 1 <= j < i - 1 && t == Candidate(filename, j)
      decreases |existing - tried|
    {
      assert existing - (tried + {name}) == (existing - tried) - {name};
      forall j: nat | 1 <= j < i
        ensures Candidate(filename, j) in existing
      {
        if j == i - 1 {
          assert Candidate(filename, j) == name;
        }
      }
      tried := tried + {name};
      name := Candidate(filename, i);
      CandidateDistinct(filename, i, i);
      forall j: nat | 1 <= j < i
        ensures Candidate(filename, j) != name
      {
        CandidateDistinct(filename, j, i);
      }
      i := i + 1;
    }
    if i > 1 {
      assert forall j: nat :: 1 <= j < i - 1 ==> Candidate(filename, j) in existing;
    }
  }
}
