/** Form checks of the site scripts: the e-mail pattern shared by the
    newsletter box (assets/news.js) and the contact forms (assets/main.js),
    and `validateForm`, which marks the offending fields of a form. */
module Forms {
  import opened Strings

  /** No whitespace (the regex class `\s`) and no '@'. */
  predicate NoSpaceOrAt(t: string) {
    forall k :: 0 <= k < |t| ==> !IsSpace(t[k], JavaScript) && t[k] != '@'
  }

  /** The regular expression `^[^\s@]+@[^\s@]+\.[^\s@]+$`, read as a shape:
      s is A '@' B '.' C with A, B and C non-empty and free of whitespace and
      '@'. The '.' may be any dot of the part after the '@' that has text on
      both sides. */
  ghost predicate MatchesEmailPattern(s: string) {
    exists a, d :: 0 < a && a + 1 < d && d + 1 < |s| && s[a] == '@' && s[d] == '.'
                   && NoSpaceOrAt(s[..a]) && NoSpaceOrAt(s[a + 1..d]) && NoSpaceOrAt(s[d + 1..])
  }

  /** `validateEmail(email)` / `emailRegex.test(value)`, decided without
      back-tracking: no whitespace at all, exactly one '@' with text before
      it, and a '.' after the '@' that is neither its first nor the last
      character of the text. */
  predicate IsValidEmail(s: string) {
    && '@' in s
    && (forall k :: 0 <= k < |s| ==> !IsSpace(s[k], JavaScript))
    && var a := IndexOf(s, '@');
       && a > 0 && '@' !in s[a + 1..]
       && a + 2 <= |s| - 1 && '.' in s[a + 2..|s| - 1]
  }

  /** The check accepts exactly the texts the regular expression matches. */
  lemma IsValidEmailIff(s: string)
    ensures IsValidEmail(s) <==> MatchesEmailPattern(s)
  {
    if IsValidEmail(s) {
      ValidEmailMatches(s);
    }
    if MatchesEmailPattern(s) {
      MatchingEmailIsValid(s);
    }
  }

  /** A text the check accepts splits at its '@' and at the first '.' that
      has text on both sides. */
  lemma ValidEmailMatches(s: string)
    requires IsValidEmail(s)
    ensures MatchesEmailPattern(s)
  {
    var a := IndexOf(s, '@');
    var mid := s[a + 2..|s| - 1];
    var d := a + 2 + IndexOf(mid, '.');
    assert s[d] == mid[d - a - 2];
    var tail, domain, top := s[a + 1..], s[a + 1..d], s[d + 1..];
    forall k | 0 <= k < |domain| ensures !IsSpace(domain[k], JavaScript) && domain[k] != '@' {
      assert domain[k] == tail[k] == s[a + 1 + k];
    }
    forall k | 0 <= k < |top| ensures !IsSpace(top[k], JavaScript) && top[k] != '@' {
      assert top[k] == tail[k + d - a] == s[d + 1 + k];
    }
    forall k | 0 <= k < a ensures !IsSpace(s[..a][k], JavaScript) && s[..a][k] != '@' {
      assert s[..a][k] == s[k];
    }
  }

  /** A text the regular expression matches has one '@', put where the
      check looks for it, and the dot after it. */
  lemma MatchingEmailIsValid(s: string)
    requires MatchesEmailPattern(s)
    ensures IsValidEmail(s)
  {
    var a, d :| 0 < a && a + 1 < d && d + 1 < |s| && s[a] == '@' && s[d] == '.'
                && NoSpaceOrAt(s[..a]) && NoSpaceOrAt(s[a + 1..d]) && NoSpaceOrAt(s[d + 1..]);
    forall k | 0 <= k < |s| && k != a && k != d
      ensures !IsSpace(s[k], JavaScript) && s[k] != '@'
    {
      if k < a { assert s[k] == s[..a][k]; }
      else if k < d { assert s[k] == s[a + 1..d][k - a - 1]; }
      else { assert s[k] == s[d + 1..][k - d - 1]; }
    }
    var i := IndexOf(s, '@');
    assert i == a;
    var tail := s[a + 1..];
    forall k | 0 <= k < |tail| ensures tail[k] != '@' {
      assert tail[k] == s[a + 1 + k];
    }
    assert s[a + 2..|s| - 1][d - a - 2] == '.';
  }

  /** An input of a form: its value and the two selectors `validateForm`
      queries (`[required]` and `input[type="email"]`). */
  datatype Field = Field(value: string, required: bool, isEmail: bool)

  /** A required field fails when its value is blank. */
  predicate RequiredFails(f: Field) {
    f.required && IsBlank(f.value, JavaScript)
  }

  /** An e-mail field fails when it holds a value that is not an address. */
  predicate EmailFails(f: Field) {
    f.isEmail && f.value != "" && !IsValidEmail(f.value)
  }

  /** `validateForm(form)`: the form is valid exactly when no field fails
      either rule. Required fields get their error mark set or cleared by the
      first rule; the e-mail rule then only ever adds marks; a field under
      neither selector keeps the mark it had. */
  method ValidateForm(fields: seq<Field>, error: array<bool>) returns (isValid: bool)
    requires error.Length == |fields|
    modifies error
    ensures isValid <==> forall i :: 0 <= i < |fields| ==> !RequiredFails(fields[i]) && !EmailFails(fields[i])
    ensures forall i :: 0 <= i < |fields| ==>
              error[i] == if fields[i].required then RequiredFails(fields[i]) || EmailFails(fields[i])
                          else old(error[i]) || EmailFails(fields[i])
  {
    var requiredOk := MarkRequired(fields, error);
    var emailsOk := MarkEmails(fields, error);
    isValid := requiredOk && emailsOk;
  }

  /** The first pass of `validateForm`, over the `[required]` fields. */
  method MarkRequired(fields: seq<Field>, error: array<bool>) returns (ok: bool)
    requires error.Length == |fields|
    modifies error
    ensures ok <==> forall i :: 0 <= i < |fields| ==> !RequiredFails(fields[i])
    ensures forall i :: 0 <= i < |fields| ==>
              error[i] == if fields[i].required then RequiredFails(fields[i]) else old(error[i])
  {
    ok := true;
    var i := 0;
    while i < |fields|
      invariant 0 <= i <= |fields|
      invariant ok <==> forall k :: 0 <= k < i ==> !RequiredFails(fields[k])
      invariant forall k :: 0 <= k < i ==>
                  error[k] == if fields[k].required then RequiredFails(fields[k]) else old(error[k])
      invariant forall k :: i <= k < |fields| ==> error[k] == old(error[k])
    {
      if fields[i].required {
        TrimEmptyIffBlank(fields[i].value, JavaScript);
        if Trim(fields[i].value, JavaScript) == [] {
          error[i] := true;
          ok := false;
        } else {
          error[i] := false;
        }
      }
      i := i + 1;
    }
  }

  /** The second pass of `validateForm`, over the e-mail inputs: it only ever
      sets marks. */
  method MarkEmails(fields: seq<Field>, error: array<bool>) returns (ok: bool)
    requires error.Length == |fields|
    modifies error
    ensures ok <==> forall i :: 0 <= i < |fields| ==> !EmailFails(fields[i])
    ensures forall i :: 0 <= i < |fields| ==> error[i] == (old(error[i]) || EmailFails(fields[i]))
  {
    ok := true;
    var j := 0;
    while j < |fields|
      invariant 0 <= j <= |fields|
      invariant ok <==> forall k :: 0 <= k < j ==> !EmailFails(fields[k])
      invariant forall k :: 0 <= k < j ==> error[k] == (old(error[k]) || EmailFails(fields[k]))
      invariant forall k :: j <= k < |fields| ==> error[k] == old(error[k])
    {
      if fields[j].isEmail && fields[j].value != "" && !IsValidEmail(fields[j].value) {
        error[j] := true;
        ok := false;
      }
      j := j + 1;
    }
  }
}
