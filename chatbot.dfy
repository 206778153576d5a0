/** The browser side of the assistant (assets/chatbot.js): the translation
    service with its in-memory cache, and the chat widget with its
    conversation history. Requests to the two proxies are not made here;
    their outcome is a parameter of the operation that would make them. */
module ChatWidget {
  import opened Wrappers
  import opened Strings
  import opened Records
  import opened Proxy
  import ChatApi

  // ---------------------------------------------------------------------
  // Translation service
  // ---------------------------------------------------------------------

  /** The outcome of a POST to the translation proxy: a failure (network
      error, a status that is not ok, a body that is not JSON), or the
      body's `success` and `translation` fields. */
  datatype TranslateFetch = TranslateFetchFailed | TranslateFetched(success: bool, translation: Option<string>)

  /** The fetch carries a translation the cache may keep. */
  predicate Usable(f: TranslateFetch) {
    f.TranslateFetched? && f.success && IsTruthy(f.translation)
  }

  /** The cache key, `${text}_${targetLang}`. */
  function CacheKey(text: string, lang: string): string {
    text + "_" + lang
  }

  /** The separator of a key is its last '_' when the language holds none. */
  lemma LastSeparator(t: string, l: string)
    requires '_' !in l
    ensures '_' in CacheKey(t, l) && LastIndexOf(CacheKey(t, l), '_') == |t|
  {
    var k := CacheKey(t, l);
    assert k[|t|] == '_';
  }

  /** Language codes hold no '_', so a key names a single text and
      language pair: entries for different pairs never collide. */
  lemma CacheKeyInjective(t1: string, l1: string, t2: string, l2: string)
    requires '_' !in l1 && '_' !in l2
    requires CacheKey(t1, l1) == CacheKey(t2, l2)
    ensures t1 == t2 && l1 == l2
  {
    var k := CacheKey(t1, l1);
    LastSeparator(t1, l1);
    LastSeparator(t2, l2);
    assert t1 == k[..|t1|] == t2;
    assert l1 == k[|t1| + 1..] == l2;
  }

  /** Some element among the first n has the original `orig` and a usable
      reply: after it, `orig` is cached. */
  ghost predicate UsableBefore(olds: seq<Element>, fetches: seq<TranslateFetch>, orig: string, n: int)
    requires n <= |olds| == |fetches|
  {
    exists m :: 0 <= m < n && OriginalOf(olds[m]) == orig && Usable(fetches[m])
  }

  /** What `translatePage` shows for element i, given the cache before the
      pass (`cache0`) and after it: blank text as it is; a pair cached
      before the pass from the cache; in fallback mode the original; else
      the cached translation once an element up to i with the same original
      had a usable reply, and the original when none had. */
  ghost predicate PageShows(olds: seq<Element>, fetches: seq<TranslateFetch>, lang: string, useFallback: bool,
                            cache0: map<string, string>, cache: map<string, string>, i: int, shown: string)
    requires 0 <= i < |olds| == |fetches|
  {
    var orig := OriginalOf(olds[i]);
    var key := CacheKey(orig, lang);
    if IsBlank(orig, JavaScript) then shown == orig
    else if key in cache0 then shown == cache0[key]
    else if useFallback then shown == orig
    else if UsableBefore(olds, fetches, orig, i + 1) then key in cache && shown == cache[key]
    else shown == orig
  }

  /** Every entry the pass adds is the usable reply of an element whose
      original it keys. */
  ghost predicate AddedByPage(olds: seq<Element>, fetches: seq<TranslateFetch>, lang: string, n: int,
                              cache0: map<string, string>, cache: map<string, string>)
    requires 0 <= n <= |olds| == |fetches|
  {
    forall k :: k in cache && k !in cache0 ==>
      exists m :: 0 <= m < n && k == CacheKey(OriginalOf(olds[m]), lang) && Usable(fetches[m])
                  && cache[k] == fetches[m].translation.value
  }

  /** Every element before n whose usable reply was asked for has its
      original cached. */
  ghost predicate CachedUsable(olds: seq<Element>, fetches: seq<TranslateFetch>, lang: string, useFallback: bool,
                               n: int, cache: map<string, string>)
    requires 0 <= n <= |olds| == |fetches|
  {
    forall m :: 0 <= m < n && !useFallback && Usable(fetches[m]) && !IsBlank(OriginalOf(olds[m]), JavaScript) ==>
      CacheKey(OriginalOf(olds[m]), lang) in cache
  }

  /** The outcome of one `translate(text, lang)` call, from the cache
      before it to the cache after it. */
  ghost predicate TranslateOutcome(text: string, lang: string, useFallback: bool, fetch: TranslateFetch,
                                   before: map<string, string>, after: map<string, string>, result: string)
  {
    var key := CacheKey(text, lang);
    if IsBlank(text, JavaScript) then result == text && after == before
    else if key in before then result == before[key] && after == before
    else if useFallback || !Usable(fetch) then result == text && after == before
    else result == fetch.translation.value && after == before[key := result]
  }

  /** A cache that only grows keeps what `PageShows` says of an element. */
  lemma PageShowsGrows(olds: seq<Element>, fetches: seq<TranslateFetch>, lang: string, useFallback: bool,
                       cache0: map<string, string>, before: map<string, string>, after: map<string, string>,
                       i: int, shown: string)
    requires 0 <= i < |olds| == |fetches|
    requires forall k :: k in before ==> k in after && after[k] == before[k]
    requires PageShows(olds, fetches, lang, useFallback, cache0, before, i, shown)
    ensures PageShows(olds, fetches, lang, useFallback, cache0, after, i, shown)
  {
  }

  /** One element of `translatePage`: the translation of element i, from
      the cache the earlier elements left, is what `PageShows` says. */
  lemma PageStepShows(olds: seq<Element>, fetches: seq<TranslateFetch>, lang: string, useFallback: bool,
                      cache0: map<string, string>, before: map<string, string>, after: map<string, string>,
                      i: int, shown: string)
    requires 0 <= i < |olds| == |fetches|
    requires forall k :: k in cache0 ==> k in before && before[k] == cache0[k]
    requires AddedByPage(olds, fetches, lang, i, cache0, before)
    requires CachedUsable(olds, fetches, lang, useFallback, i, before)
    requires useFallback ==> before == cache0
    requires TranslateOutcome(OriginalOf(olds[i]), lang, useFallback, fetches[i], before, after, shown)
    ensures PageShows(olds, fetches, lang, useFallback, cache0, after, i, shown)
  {
    var orig := OriginalOf(olds[i]);
    var key := CacheKey(orig, lang);
    if !IsBlank(orig, JavaScript) && key !in cache0 && !useFallback {
      if key in before {
        var m :| 0 <= m < i && key == CacheKey(OriginalOf(olds[m]), lang) && Usable(fetches[m])
                 && before[key] == fetches[m].translation.value;
        CacheKeySameLang(OriginalOf(olds[m]), orig, lang);
        assert UsableBefore(olds, fetches, orig, i + 1);
      } else if Usable(fetches[i]) {
        assert UsableBefore(olds, fetches, orig, i + 1);
      } else {
        assert !UsableBefore(olds, fetches, orig, i + 1);
      }
    }
  }

  /** A call either leaves the cache alone or adds the one entry of a
      usable reply, under a key not cached before. */
  lemma OutcomeCache(text: string, lang: string, useFallback: bool, fetch: TranslateFetch,
                     before: map<string, string>, after: map<string, string>, result: string)
    requires TranslateOutcome(text, lang, useFallback, fetch, before, after, result)
    ensures after == before
            || (&& !useFallback && Usable(fetch) && !IsBlank(text, JavaScript)
                && CacheKey(text, lang) !in before
                && after == before[CacheKey(text, lang) := fetch.translation.value])
    ensures !useFallback && Usable(fetch) && !IsBlank(text, JavaScript) ==> CacheKey(text, lang) in after
  {
  }

  /** An entry added for element i keeps `AddedByPage` true one element
      further. */
  lemma PageStepAdded(olds: seq<Element>, fetches: seq<TranslateFetch>, lang: string,
                      cache0: map<string, string>, before: map<string, string>, after: map<string, string>, i: int)
    requires 0 <= i < |olds| == |fetches|
    requires AddedByPage(olds, fetches, lang, i, cache0, before)
    requires after == before
             || (&& Usable(fetches[i]) && CacheKey(OriginalOf(olds[i]), lang) !in before
                 && after == before[CacheKey(OriginalOf(olds[i]), lang) := fetches[i].translation.value])
    ensures AddedByPage(olds, fetches, lang, i + 1, cache0, after)
  {
    if after != before {
      var key := CacheKey(OriginalOf(olds[i]), lang);
      forall k | k in after && k !in cache0
        ensures exists m :: 0 <= m < i + 1 && k == CacheKey(OriginalOf(olds[m]), lang) && Usable(fetches[m])
                            && after[k] == fetches[m].translation.value
      {
        if k == key {
          assert after[k] == fetches[i].translation.value;
        } else {
          assert k in before && after[k] == before[k];
        }
      }
    }
  }

  /** One element of `translatePage`: the cache facts of the pass extend
      to element i. */
  lemma PageStepCache(olds: seq<Element>, fetches: seq<TranslateFetch>, lang: string, useFallback: bool,
                      cache0: map<string, string>, before: map<string, string>, after: map<string, string>,
                      i: int, shown: string)
    requires 0 <= i < |olds| == |fetches|
    requires AddedByPage(olds, fetches, lang, i, cache0, before)
    requires CachedUsable(olds, fetches, lang, useFallback, i, before)
    requires useFallback ==> before == cache0
    requires TranslateOutcome(OriginalOf(olds[i]), lang, useFallback, fetches[i], before, after, shown)
    ensures forall k :: k in before ==> k in after && after[k] == before[k]
    ensures AddedByPage(olds, fetches, lang, i + 1, cache0, after)
    ensures CachedUsable(olds, fetches, lang, useFallback, i + 1, after)
    ensures useFallback ==> after == cache0
  {
    OutcomeCache(OriginalOf(olds[i]), lang, useFallback, fetches[i], before, after, shown);
    PageStepAdded(olds, fetches, lang, cache0, before, after, i);
    PageStepCached(olds, fetches, lang, useFallback, before, after, i);
  }

  /** A cache that only grows and holds element i's usable reply keeps
      `CachedUsable` true one element further. */
  lemma PageStepCached(olds: seq<Element>, fetches: seq<TranslateFetch>, lang: string, useFallback: bool,
                       before: map<string, string>, after: map<string, string>, i: int)
    requires 0 <= i < |olds| == |fetches|
    requires CachedUsable(olds, fetches, lang, useFallback, i, before)
    requires forall k :: k in before ==> k in after
    requires !useFallback && Usable(fetches[i]) && !IsBlank(OriginalOf(olds[i]), JavaScript) ==>
               CacheKey(OriginalOf(olds[i]), lang) in after
    ensures CachedUsable(olds, fetches, lang, useFallback, i + 1, after)
  {
  }

  /** The first |done| elements after their visit: each records its
      original and shows what `PageShows` says. */
  ghost predicate PageDone(olds: seq<Element>, fetches: seq<TranslateFetch>, lang: string, useFallback: bool,
                           cache0: map<string, string>, cache: map<string, string>, done: seq<Element>)
    requires |done| <= |olds| == |fetches|
  {
    forall k :: 0 <= k < |done| ==>
      && done[k].originalText == Some(OriginalOf(olds[k]))
      && PageShows(olds, fetches, lang, useFallback, cache0, cache, k, done[k].textContent)
  }

  /** Visiting one more element, while the cache only grows, extends
      `PageDone`. */
  lemma PageDoneExtend(olds: seq<Element>, fetches: seq<TranslateFetch>, lang: string, useFallback: bool,
                       cache0: map<string, string>, before: map<string, string>, after: map<string, string>,
                       done: seq<Element>, e: Element)
    requires |done| < |olds| == |fetches|
    requires PageDone(olds, fetches, lang, useFallback, cache0, before, done)
    requires forall k :: k in before ==> k in after && after[k] == before[k]
    requires e.originalText == Some(OriginalOf(olds[|done|]))
    requires PageShows(olds, fetches, lang, useFallback, cache0, after, |done|, e.textContent)
    ensures PageDone(olds, fetches, lang, useFallback, cache0, after, done + [e])
  {
    forall k | 0 <= k < |done| {
      PageShowsGrows(olds, fetches, lang, useFallback, cache0, before, after, k, done[k].textContent);
    }
  }

  /** What `PageShows` says of an element is its original or the cached
      translation of it. */
  lemma PageShowsCached(olds: seq<Element>, fetches: seq<TranslateFetch>, lang: string, useFallback: bool,
                        cache0: map<string, string>, cache: map<string, string>, i: int, shown: string)
    requires 0 <= i < |olds| == |fetches|
    requires forall k :: k in cache0 ==> k in cache && cache[k] == cache0[k]
    requires PageShows(olds, fetches, lang, useFallback, cache0, cache, i, shown)
    ensures shown == OriginalOf(olds[i])
            || (CacheKey(OriginalOf(olds[i]), lang) in cache && cache[CacheKey(OriginalOf(olds[i]), lang)] == shown)
  {
  }

  /** For one language, a key names a single text. */
  lemma CacheKeySameLang(t1: string, t2: string, lang: string)
    requires CacheKey(t1, lang) == CacheKey(t2, lang)
    ensures t1 == t2
  {
    assert |t1| == |t2|;
    assert t1 == CacheKey(t1, lang)[..|t1|];
  }

  /** The translation service. `useFallback` is fixed at load time: it
      holds on a local host, where there is no proxy. */
  class TranslationService {
    var cache: map<string, string>
    var currentLang: string
    const useFallback: bool

    /** Only non-empty translations are ever cached. */
    predicate Valid()
      reads this
    {
      forall k :: k in cache ==> cache[k] != ""
    }

    constructor (useFallback: bool)
      ensures Valid()
      ensures cache == map[] && currentLang == "en" && this.useFallback == useFallback
    {
      cache := map[];
      currentLang := "en";
      this.useFallback := useFallback;
    }

    /** `translate(text, targetLang)`. It never fails: blank text comes back
        as it is; a cached pair is answered from the cache; in fallback mode,
        on any failure and on an unusable reply the text comes back as it is.
        Only a usable reply is cached, and no entry already cached ever
        changes. `requested` tells whether a request was sent; `fetch` is its
        outcome. */
    method Translate(text: string, targetLang: string, fetch: TranslateFetch) returns (result: string, requested: bool)
      requires Valid()
      modifies this
      ensures Valid()
      ensures currentLang == old(currentLang)
      ensures requested <==> !IsBlank(text, JavaScript) && CacheKey(text, targetLang) !in old(cache) && !useFallback
      ensures !requested ==> cache == old(cache)
      ensures IsBlank(text, JavaScript) ==> result == text
      ensures !IsBlank(text, JavaScript) && CacheKey(text, targetLang) in old(cache) ==>
                result == old(cache)[CacheKey(text, targetLang)]
      ensures !IsBlank(text, JavaScript) && CacheKey(text, targetLang) !in old(cache) && useFallback ==> result == text
      ensures requested && Usable(fetch) ==>
                result == fetch.translation.value && cache == old(cache)[CacheKey(text, targetLang) := result]
      ensures requested && !Usable(fetch) ==> result == text && cache == old(cache)
      ensures forall k :: k in old(cache) ==> k in cache && cache[k] == old(cache)[k]
      ensures result == text || (CacheKey(text, targetLang) in cache && cache[CacheKey(text, targetLang)] == result)
      ensures result == "" <==> text == ""
    {
      TrimEmptyIffBlank(text, JavaScript);
      if text == "" || Trim(text, JavaScript) == "" {
        return text, false;
      }
      var cacheKey := text + "_" + targetLang;
      if cacheKey in cache {
        return cache[cacheKey], false;
      }
      if useFallback {
        return text, false;
      }
      requested := true;
      match fetch
      case TranslateFetchFailed =>
        result := text;
      case TranslateFetched(success, translation) =>
        if success && translation.Some? && translation.value != "" {
          cache := cache[cacheKey := translation.value];
          result := translation.value;
        } else {
          result := text;
        }
    }

    /** `translatePage(targetLang)` over the `[data-translate-ai]` elements,
        in document order; `fetches[i]` is the outcome of the request the
        i-th element's translation would make. Each element keeps the text it
        had on its first visit as `originalText` and is translated from that
        text, never from an earlier translation. What each element shows
        is what `PageShows` says, and every new cache entry is a usable
        reply of an element (`AddedByPage`). */
    method TranslatePage(targetLang: string, elements: array<Element>, fetches: seq<TranslateFetch>)
      requires Valid() && |fetches| == elements.Length
      modifies this, elements
      ensures Valid()
      ensures currentLang == targetLang
      ensures forall k :: k in old(cache) ==> k in cache && cache[k] == old(cache)[k]
      ensures forall i :: 0 <= i < elements.Length ==>
                var orig := OriginalOf(old(elements[i]));
                && elements[i].originalText == Some(orig)
                && (elements[i].textContent == orig
                    || (CacheKey(orig, targetLang) in cache && cache[CacheKey(orig, targetLang)] == elements[i].textContent))
      ensures forall i :: 0 <= i < elements.Length ==>
                PageShows(old(elements[..]), fetches, targetLang, useFallback, old(cache), cache, i, elements[i].textContent)
      ensures AddedByPage(old(elements[..]), fetches, targetLang, elements.Length, old(cache), cache)
      ensures useFallback ==> cache == old(cache)
    {
      ghost var olds := elements[..];
      ghost var cache0 := cache;
      currentLang := targetLang;
      var i := 0;
      while i < elements.Length
        invariant 0 <= i <= elements.Length
        invariant Valid() && currentLang == targetLang
        invariant forall k :: k in cache0 ==> k in cache && cache[k] == cache0[k]
        invariant PageDone(olds, fetches, targetLang, useFallback, cache0, cache, elements[..i])
        invariant AddedByPage(olds, fetches, targetLang, i, cache0, cache)
        invariant CachedUsable(olds, fetches, targetLang, useFallback, i, cache)
        invariant useFallback ==> cache == cache0
        invariant forall k :: i <= k < elements.Length ==> elements[k] == olds[k]
      {
        var e := elements[i];
        var originalText := if e.originalText.Some? && e.originalText.value != "" then e.originalText.value else e.textContent;
        ghost var before := cache;
        ghost var done := elements[..i];
        var translated, _ := Translate(originalText, targetLang, fetches[i]);
        assert originalText == OriginalOf(olds[i]);
        assert TranslateOutcome(originalText, targetLang, useFallback, fetches[i], before, cache, translated);
        PageStepShows(olds, fetches, targetLang, useFallback, cache0, before, cache, i, translated);
        PageStepCache(olds, fetches, targetLang, useFallback, cache0, before, cache, i, translated);
        PageDoneExtend(olds, fetches, targetLang, useFallback, cache0, before, cache, done, Element(Some(originalText), translated));
        elements[i] := Element(Some(originalText), translated);
        assert elements[..i + 1] == done + [Element(Some(originalText), translated)];
        i := i + 1;
      }
      assert elements[..] == elements[..elements.Length];
      forall k | 0 <= k < elements.Length
        ensures elements[k].textContent == OriginalOf(olds[k])
                || (CacheKey(OriginalOf(olds[k]), targetLang) in cache
                    && cache[CacheKey(OriginalOf(olds[k]), targetLang)] == elements[k].textContent)
      {
        PageShowsCached(olds, fetches, targetLang, useFallback, cache0, cache, k, elements[k].textContent);
      }
    }
  }

  /** A page element marked for translation: its `data-original-text`
      attribute (absent until the first visit) and its text. */
  datatype Element = Element(originalText: Option<string>, textContent: string)

  /** `element.dataset.originalText || element.textContent`. */
  function OriginalOf(e: Element): string {
    if IsTruthy(e.originalText) then e.originalText.value else e.textContent
  }

  /** After a visit records `orig` and shows a translation of it, the next
      visit reads the same original again, whatever was shown: translations
      never compound. The one exception would be an empty original, but
      `Translate` returns "" for "" only. */
  lemma OriginalIsStable(e: Element, shown: string)
    requires OriginalOf(e) == "" ==> shown == ""
    ensures OriginalOf(Element(Some(OriginalOf(e)), shown)) == OriginalOf(e)
  {
  }

  // ---------------------------------------------------------------------
  // Chat widget
  // ---------------------------------------------------------------------

  /** The outcome of a POST to the chat proxy: a failure (network error,
      a status that is not ok, a body that is not JSON), or the body's
      `success` and `response` fields. */
  datatype ChatFetch = ChatFetchFailed | ChatFetched(success: bool, response: Option<string>)

  /** A bubble added to the message list. The apology is a fixed text per
      language (`errorMessages[currentLang] || errorMessages['en']`),
      represented by its language. */
  datatype Bubble = UserBubble(text: string) | BotBubble(text: string) | ApologyBubble(lang: Lang)

  /** `s.slice(-n)` for n > 0: the last n entries, or all of them when
      there are fewer. It is used with 10 and 20 only; `LastN(s, 0)` is
      empty, whereas `slice(-0)` would return the whole list. */
  function LastN<T>(s: seq<T>, n: nat): (r: seq<T>)
    ensures |r| == if |s| <= n then |s| else n
    ensures r == s[|s| - |r|..]
  {
    if |s| <= n then s else s[|s| - n..]
  }

  /** The window keeps the newest entry and never holds more than n. */
  lemma LastNKeepsNewest<T>(s: seq<T>, x: T, n: nat)
    requires n > 0
    ensures |LastN(s + [x], n)| <= n
    ensures LastN(s + [x], n)[|LastN(s + [x], n)| - 1] == x
  {
  }

  const ProjectReply := "SCCF works on civic education, youth empowerment, community development, and human rights awareness programs across Sri Lanka. Visit our Projects page to learn more!"
  const VolunteerReply := "We'd love to have you volunteer! You can sign up through our Get Involved section on the website, or email us at contact@sccflk.org"
  const DonationReply := "Thank you for your interest in supporting SCCF! Please contact us at contact@sccflk.org for donation information."
  /** The contact text as the file holds it: each of its three emoji is
      stored as four mis-decoded characters. */
  const ContactReply := "You can reach us at:\n\U{F8FF}\U{FC}\U{EC}\U{DF} Email: contact@sccflk.org\n\U{F8FF}\U{FC}\U{EC}\U{B1} WhatsApp: +94 70 136 5412\n\U{F8FF}\U{FC}\U{E5}\U{EA} Website: sccflk.org"
  const DefaultReply := "Thank you for your message! For the best experience with our AI assistant, please access the website from our hosted domain. In the meantime, feel free to explore our website or contact us at contact@sccflk.org"

  /** `getFallbackResponse(message)`: the canned reply of the first keyword,
      in the order project, volunteer, donat, contact, that the lower-cased
      message contains; the default reply when it holds none of them. */
  function FallbackResponse(message: string): (reply: string)
    ensures reply in {ProjectReply, VolunteerReply, DonationReply, ContactReply, DefaultReply}
  {
    var lower := Lower(message);
    if Contains(lower, "project") then ProjectReply
    else if Contains(lower, "volunteer") then VolunteerReply
    else if Contains(lower, "donat") then DonationReply
    else if Contains(lower, "contact") then ContactReply
    else DefaultReply
  }

  /** The lower-cased message holds `word` at some position. */
  ghost predicate Mentions(message: string, word: string) {
    exists k: nat :: OccursAt(Lower(message), word, k)
  }

  /** The keywords are checked in the order project, volunteer, donat,
      contact: the reply is that of the first one the message mentions,
      whatever it mentions after it, and the default exactly when it
      mentions none. */
  lemma FallbackPriority(message: string)
    ensures Mentions(message, "project") ==> FallbackResponse(message) == ProjectReply
    ensures !Mentions(message, "project") && Mentions(message, "volunteer") ==>
              FallbackResponse(message) == VolunteerReply
    ensures !Mentions(message, "project") && !Mentions(message, "volunteer") && Mentions(message, "donat") ==>
              FallbackResponse(message) == DonationReply
    ensures (!Mentions(message, "project") && !Mentions(message, "volunteer") && !Mentions(message, "donat") &&
             Mentions(message, "contact")) ==> FallbackResponse(message) == ContactReply
    ensures FallbackResponse(message) == DefaultReply <==>
              !Mentions(message, "project") && !Mentions(message, "volunteer") && !Mentions(message, "donat") &&
              !Mentions(message, "contact")
  {
    var lower := Lower(message);
    ContainsIff(lower, "project");
    ContainsIff(lower, "volunteer");
    ContainsIff(lower, "donat");
    ContainsIff(lower, "contact");
  }

  /** Lower-casing twice is lower-casing once. */
  lemma LowerIdempotent(s: string)
    ensures Lower(Lower(s)) == Lower(s)
  {
    forall i | 0 <= i < |s| ensures Lower(Lower(s))[i] == Lower(s)[i] {
      assert LowerChar(LowerChar(s[i])) == LowerChar(s[i]);
    }
  }

  /** The keyword match ignores ASCII case: a message and its lower-cased
      form get the same reply. */
  lemma FallbackIgnoresCase(message: string)
    ensures FallbackResponse(Lower(message)) == FallbackResponse(message)
  {
    LowerIdempotent(message);
  }

  /** The chat widget. `useFallback` is fixed at load time, as for the
      translation service. `saved` is what local storage holds under the
      history key, `bubbles` the messages shown, `input` the text box. */
  class ChatBot {
    var isOpen: bool
    var history: seq<ChatApi.Turn>
    var currentLang: string
    var saved: Option<seq<ChatApi.Turn>>
    var bubbles: seq<Bubble>
    var input: string
    const useFallback: bool

    constructor (useFallback: bool, lang: string)
      ensures !isOpen && history == [] && currentLang == lang && saved == None
      ensures bubbles == [] && input == "" && this.useFallback == useFallback
    {
      isOpen := false;
      history := [];
      currentLang := lang;
      saved := None;
      bubbles := [];
      input := "";
      this.useFallback := useFallback;
    }

    /** `toggle()`: open when closed, closed when open. */
    method Toggle()
      modifies this
      ensures isOpen == !old(isOpen)
      ensures history == old(history) && saved == old(saved) && bubbles == old(bubbles)
      ensures input == old(input) && currentLang == old(currentLang)
    {
      if isOpen {
        Close();
      } else {
        Open();
      }
    }

    method Open()
      modifies this
      ensures isOpen
      ensures history == old(history) && saved == old(saved) && bubbles == old(bubbles)
      ensures input == old(input) && currentLang == old(currentLang)
    {
      isOpen := true;
    }

    method Close()
      modifies this
      ensures !isOpen
      ensures history == old(history) && saved == old(saved) && bubbles == old(bubbles)
      ensures input == old(input) && currentLang == old(currentLang)
    {
      isOpen := false;
    }

    /** A language button: the code on the button becomes the language. */
    method SelectLanguage(lang: string)
      modifies this
      ensures currentLang == lang
      ensures isOpen == old(isOpen) && history == old(history) && saved == old(saved)
      ensures bubbles == old(bubbles) && input == old(input)
    {
      currentLang := lang;
    }

    /** `saveConversation()`: only the last 20 turns are stored. */
    method SaveConversation()
      modifies this
      ensures saved == Some(LastN(history, 20))
      ensures isOpen == old(isOpen) && history == old(history) && bubbles == old(bubbles)
      ensures input == old(input) && currentLang == old(currentLang)
    {
      saved := Some(LastN(history, 20));
    }

    /** `sendMessage()`, as one step that ends once the reply has arrived
        (the fallback's timer or the proxy's answer). A blank input
        changes nothing. Otherwise the input is cleared and exactly one user
        turn, the trimmed text, is appended. In fallback mode the canned
        reply follows as an assistant turn. Else the request carries the
        last 10 turns, the new one included, and `reply` is its outcome:
        an assistant turn is appended only for a successful non-empty
        response, and a failure shows the apology in the widget's language.
        The history is saved at the end either way. */
    method SendMessage(reply: ChatFetch) returns (request: Option<ChatApi.ChatBody>)
      modifies this
      ensures IsBlank(old(input), JavaScript) ==>
                && request == None && history == old(history) && saved == old(saved)
                && bubbles == old(bubbles) && input == old(input)
      ensures !IsBlank(old(input), JavaScript) ==>
                var message := Trim(old(input), JavaScript);
                var turn := ChatApi.Turn("user", message);
                && input == ""
                && saved == Some(LastN(history, 20))
                && (useFallback ==>
                      && request == None
                      && history == old(history) + [turn, ChatApi.Turn("assistant", FallbackResponse(message))]
                      && bubbles == old(bubbles) + [UserBubble(message), BotBubble(FallbackResponse(message))])
                && (!useFallback ==>
                      && request == Some(ChatApi.ChatBody(Some(message), Some(currentLang), Some(LastN(old(history) + [turn], 10))))
                      && (if reply.ChatFetched? && reply.success && IsTruthy(reply.response)
                          then history == old(history) + [turn, ChatApi.Turn("assistant", reply.response.value)]
                               && bubbles == old(bubbles) + [UserBubble(message), BotBubble(reply.response.value)]
                          else history == old(history) + [turn]
                               && bubbles == old(bubbles) + [UserBubble(message), ApologyBubble(ChatApi.ApologyLang(Some(currentLang)))]))
      ensures isOpen == old(isOpen) && currentLang == old(currentLang)
    {
      TrimEmptyIffBlank(input, JavaScript);
      var message := Trim(input, JavaScript);
      if message == "" {
        return None;
      }
      input := "";
      request := Submit(message, reply);
    }

    /** `sendMessage` once the trimmed text is known not to be empty. */
    method Submit(message: string, reply: ChatFetch) returns (request: Option<ChatApi.ChatBody>)
      modifies this
      ensures var turn := ChatApi.Turn("user", message);
              && saved == Some(LastN(history, 20))
              && (useFallback ==>
                    && request == None
                    && history == old(history) + [turn, ChatApi.Turn("assistant", FallbackResponse(message))]
                    && bubbles == old(bubbles) + [UserBubble(message), BotBubble(FallbackResponse(message))])
              && (!useFallback ==>
                    && request == Some(ChatApi.ChatBody(Some(message), Some(currentLang), Some(LastN(old(history) + [turn], 10))))
                    && (if reply.ChatFetched? && reply.success && IsTruthy(reply.response)
                        then history == old(history) + [turn, ChatApi.Turn("assistant", reply.response.value)]
                             && bubbles == old(bubbles) + [UserBubble(message), BotBubble(reply.response.value)]
                        else history == old(history) + [turn]
                             && bubbles == old(bubbles) + [UserBubble(message), ApologyBubble(ChatApi.ApologyLang(Some(currentLang)))]))
      ensures isOpen == old(isOpen) && currentLang == old(currentLang) && input == old(input)
    {
      var turn := ChatApi.Turn("user", message);
      ghost var history0, bubbles0 := history, bubbles;
      bubbles := bubbles + [UserBubble(message)];
      history := history + [turn];
      if useFallback {
        AnswerLocally(message);
        request := None;
        assert history == history0 + [turn, ChatApi.Turn("assistant", FallbackResponse(message))];
        assert bubbles == bubbles0 + [UserBubble(message), BotBubble(FallbackResponse(message))];
      } else {
        request := AnswerFromProxy(message, reply);
        if reply.ChatFetched? && reply.success && IsTruthy(reply.response) {
          assert history == history0 + [turn, ChatApi.Turn("assistant", reply.response.value)];
          assert bubbles == bubbles0 + [UserBubble(message), BotBubble(reply.response.value)];
        }
      }
    }

    /** The fallback branch of `sendMessage`, after its timer: the canned
        reply is shown and kept as a turn, and the history saved. */
    method AnswerLocally(message: string)
      modifies this
      ensures history == old(history) + [ChatApi.Turn("assistant", FallbackResponse(message))]
      ensures bubbles == old(bubbles) + [BotBubble(FallbackResponse(message))]
      ensures saved == Some(LastN(history, 20))
      ensures isOpen == old(isOpen) && currentLang == old(currentLang) && input == old(input)
    {
      var fallbackResponse := FallbackResponse(message);
      bubbles := bubbles + [BotBubble(fallbackResponse)];
      history := history + [ChatApi.Turn("assistant", fallbackResponse)];
      SaveConversation();
    }

    /** The proxy branch of `sendMessage`: the request carries the last 10
        turns; only a successful non-empty response becomes a turn, any
        other outcome shows the apology. The history is saved either way. */
    method AnswerFromProxy(message: string, reply: ChatFetch) returns (request: Option<ChatApi.ChatBody>)
      modifies this
      ensures request == Some(ChatApi.ChatBody(Some(message), Some(currentLang), Some(LastN(old(history), 10))))
      ensures if reply.ChatFetched? && reply.success && IsTruthy(reply.response)
              then history == old(history) + [ChatApi.Turn("assistant", reply.response.value)]
                   && bubbles == old(bubbles) + [BotBubble(reply.response.value)]
              else history == old(history)
                   && bubbles == old(bubbles) + [ApologyBubble(ChatApi.ApologyLang(Some(currentLang)))]
      ensures saved == Some(LastN(history, 20))
      ensures isOpen == old(isOpen) && currentLang == old(currentLang) && input == old(input)
    {
      request := Some(ChatApi.ChatBody(Some(message), Some(currentLang), Some(LastN(history, 10))));
      if reply.ChatFetched? && reply.success && reply.response.Some? && reply.response.value != "" {
        bubbles := bubbles + [BotBubble(reply.response.value)];
        history := history + [ChatApi.Turn("assistant", reply.response.value)];
      } else {
        bubbles := bubbles + [ApologyBubble(ChatApi.ApologyLang(Some(currentLang)))];
      }
      SaveConversation();
    }
  }
}
