/** What the two serverless handlers (api/chat.js and api/translate.js)
    share: the site's three languages, the script-based language detection,
    and the shape of a reply from the text-generation service. */
module Proxy {
  import opened Wrappers

  /** The site's languages: English, Sinhala and Tamil. */
  datatype Lang = En | Si | Ta {
    function Code(): string {
      match this
      case En => "en"
      case Si => "si"
      case Ta => "ta"
    }
  }

  /** The language a code names, if it is one of the three. */
  function LangOfCode(code: string): (r: Option<Lang>)
    ensures r.Some? ==> r.value.Code() == code
    ensures r.None? ==> forall l: Lang :: l.Code() != code
  {
    if code == "en" then Some(En) else if code == "si" then Some(Si) else if code == "ta" then Some(Ta) else None
  }

  const SinhalaFirst := 0x0D80
  const SinhalaLast := 0x0DFF
  const TamilFirst := 0x0B80
  const TamilLast := 0x0BFF

  /** Some character of s lies in the block lo..hi. */
  ghost predicate HasCharIn(s: string, lo: int, hi: int) {
    exists i :: 0 <= i < |s| && lo <= s[i] as int <= hi
  }

  /** The regular-expression test `/[lo-hi]/.test(s)`, as a scan from the left. */
  function ScanBlock(s: string, lo: int, hi: int): (found: bool)
    ensures found <==> HasCharIn(s, lo, hi)
  {
    if s == [] then false
    else if lo <= s[0] as int <= hi then true
    else
      var rest := ScanBlock(s[1..], lo, hi);
      assert HasCharIn(s, lo, hi) ==> HasCharIn(s[1..], lo, hi) by {
        if HasCharIn(s, lo, hi) {
          var i :| 0 <= i < |s| && lo <= s[i] as int <= hi;
          assert s[1..][i - 1] == s[i];
        }
      }
      assert HasCharIn(s[1..], lo, hi) ==> HasCharIn(s, lo, hi) by {
        if HasCharIn(s[1..], lo, hi) {
          var i :| 0 <= i < |s[1..]| && lo <= s[1..][i] as int <= hi;
          assert s[i + 1] == s[1..][i];
        }
      }
      rest
  }

  /** `detectLanguage(text)`: Sinhala when any character is in the Sinhala
      block, even if Tamil is present too; else Tamil when any is in the
      Tamil block; else English. */
  function DetectLanguage(text: string): (l: Lang)
    ensures l == Si <==> HasCharIn(text, SinhalaFirst, SinhalaLast)
    ensures l == Ta <==> !HasCharIn(text, SinhalaFirst, SinhalaLast) && HasCharIn(text, TamilFirst, TamilLast)
    ensures l == En <==> !HasCharIn(text, SinhalaFirst, SinhalaLast) && !HasCharIn(text, TamilFirst, TamilLast)
  {
    if ScanBlock(text, SinhalaFirst, SinhalaLast) then Si
    else if ScanBlock(text, TamilFirst, TamilLast) then Ta
    else En
  }

  /** What came back from the text-generation service: a failure (network
      error, a status that is not ok, a body that is not JSON), or a body
      whose `candidates[0].content.parts[0].text` is present or not. */
  datatype ProviderReply = ProviderFailed | ProviderReplied(candidate: Option<string>)

  /** The candidate text, when the reply carries a non-empty one. */
  predicate HasText(r: ProviderReply) {
    r.ProviderReplied? && r.candidate.Some? && r.candidate.value != ""
  }
}
