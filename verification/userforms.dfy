/** The admin user list's inline editors: the username and email checks run
    before saving, and the value each save sends. */
module UserForms {
  import opened Results
  import Text

  /** The message each failed check shows. */
  datatype FormError = UsernameRequired | MinChars | MaxChars | EmailRequired | InvalidEmail

  const MinNameLength := 3
  const MaxNameLength := 30

  /** `validateUsername`: the trimmed name must be non-empty, then at least
      3 and at most 30 characters; the first failing check is reported. */
  function ValidateUsername(name: string): (r: Option<FormError>)
    ensures r.None? <==> MinNameLength <= |Text.Trim(name)| <= MaxNameLength
    ensures r == Some(UsernameRequired) <==> Text.Blank(name)
    ensures r == Some(MinChars) <==> !Text.Blank(name) && |Text.Trim(name)| < MinNameLength
    ensures r == Some(MaxChars) <==> |Text.Trim(name)| > MaxNameLength
    ensures r.Some? ==> r.value in {UsernameRequired, MinChars, MaxChars}
  {
    var t := Text.Trim(name);
    if t == "" then Some(UsernameRequired)
    else if |t| < MinNameLength then Some(MinChars)
    else if |t| > MaxNameLength then Some(MaxChars)
    else None
  }

  /** A character `[^\s@]` matches. */
  predicate Plain(c: char) {
    !Text.IsSpace(c) && c != '@'
  }

  predicate AllPlain(s: string) {
    forall i :: 0 <= i < |s| ==> Plain(s[i])
  }

  /** The pattern's three runs, split at `a` and `d`. */
  predicate SplitAt(s: string, a: nat, d: nat) {
    0 < a && a + 1 < d && d + 1 < |s|
      && AllPlain(s[..a]) && s[a] == '@' && AllPlain(s[a + 1..d]) && s[d] == '.' && AllPlain(s[d + 1..])
  }

  /** `/^[^\s@]+@[^\s@]+\.[^\s@]+$/` read as a pattern: a non-empty local
      part, '@', a non-empty run, a '.', and a non-empty run, none of the
      three runs holding whitespace or '@'. */
  ghost predicate EmailPattern(s: string) {
    exists a: nat, d: nat :: SplitAt(s, a, d)
  }

  /** Position of the first `c` in `s`; `|s|` when there is none. */
  function IndexOf(s: string, c: char): (k: nat)
    ensures k <= |s|
    ensures k < |s| ==> s[k] == c
    ensures forall i :: 0 <= i < k ==> s[i] != c
  {
    if |s| == 0 || s[0] == c then 0 else 1 + IndexOf(s[1..], c)
  }

  /** No character of `s` is whitespace. */
  predicate NoSpace(s: string) {
    forall i :: 0 <= i < |s| ==> !Text.IsSpace(s[i])
  }

  /** A single left-to-right reading of the pattern: no whitespace anywhere,
      a first '@' that is not the first character, no second '@', and a '.'
      strictly inside the part after the '@'. */
  function MatchesEmail(s: string): (m: bool)
    ensures m ==> !Text.Blank(s)
  {
    var a := IndexOf(s, '@');
    var ok := NoSpace(s) && 0 < a && a + 3 < |s| && '@' !in s[a + 1..] && '.' in s[a + 2..|s| - 1];
    assert ok ==> !Text.Blank(s) by {
      if ok { assert !Text.IsSpace(s[0]); }
    }
    ok
  }

  lemma MatchesEmailGivesPattern(s: string)
    requires MatchesEmail(s)
    ensures EmailPattern(s)
  {
    var a := IndexOf(s, '@');
    var inner := s[a + 2..|s| - 1];
    var k :| 0 <= k < |inner| && inner[k] == '.';
    var d := a + 2 + k;
    var mid, tail, rest := s[a + 1..d], s[d + 1..], s[a + 1..];
    assert s[d] == '.';
    assert AllPlain(s[..a]);
    assert AllPlain(mid) by {
      forall i | 0 <= i < |mid| ensures Plain(mid[i]) {
        assert mid[i] == rest[i];
      }
    }
    assert AllPlain(tail) by {
      forall i | 0 <= i < |tail| ensures Plain(tail[i]) {
        assert tail[i] == rest[i + d - a];
      }
    }
    assert SplitAt(s, a, d);
  }

  /** Every character of a split email other than the '@' is plain. */
  lemma SplitPlain(s: string, a: nat, d: nat, i: nat)
    requires SplitAt(s, a, d) && i < |s| && i != a
    ensures Plain(s[i])
  {
    if i < a {
      assert s[i] == s[..a][i];
    } else if a < i < d {
      assert s[i] == s[a + 1..d][i - a - 1];
    } else if d < i {
      assert s[i] == s[d + 1..][i - d - 1];
    }
  }

  lemma PatternGivesMatchesEmail(s: string)
    requires EmailPattern(s)
    ensures MatchesEmail(s)
  {
    var a: nat, d: nat :| SplitAt(s, a, d);
    forall i | 0 <= i < a ensures s[i] != '@' {
      SplitPlain(s, a, d, i);
    }
    assert IndexOf(s, '@') == a;
    forall i | 0 <= i < |s| ensures !Text.IsSpace(s[i]) {
      if i != a { SplitPlain(s, a, d, i); }
    }
    var rest := s[a + 1..];
    forall i | 0 <= i < |rest| ensures rest[i] != '@' {
      SplitPlain(s, a, d, a + 1 + i);
    }
    assert s[a + 2..|s| - 1][d - a - 2] == '.';
  }

  /** The scan and the pattern accept the same strings. */
  lemma MatchesEmailIffPattern(s: string)
    ensures MatchesEmail(s) <==> EmailPattern(s)
  {
    if MatchesEmail(s) { MatchesEmailGivesPattern(s); }
    if EmailPattern(s) { PatternGivesMatchesEmail(s); }
  }

  /** `validateEmail`: a blank input is "required"; otherwise the pattern is
      tested on the input as typed, not on its trimmed form. */
  function ValidateEmail(email: string): (r: Option<FormError>)
    ensures r == Some(EmailRequired) <==> Text.Blank(email)
    ensures r.None? <==> EmailPattern(email)
    ensures r == Some(InvalidEmail) <==> !Text.Blank(email) && !EmailPattern(email)
  {
    MatchesEmailIffPattern(email);
    Text.HasNonSpaceIffNotBlank(email);
    if !Text.HasNonSpace(email) then Some(EmailRequired)
    else if !MatchesEmail(email) then Some(InvalidEmail)
    else None
  }

  /** The part of an email after its first '@'. */
  function Domain(email: string): string {
    var a := IndexOf(email, '@');
    if a < |email| then email[a + 1..] else []
  }

  /** A string whose only '@' is at position `a` holds exactly one '@'. */
  lemma OneAt(s: string, a: nat)
    requires a < |s| && s[a] == '@'
    requires '@' !in s[..a] && '@' !in s[a + 1..]
    ensures multiset(s)['@'] == 1
  {
    assert s == s[..a] + [s[a]] + s[a + 1..];
  }

  /** What an accepted email looks like: exactly one '@', after a non-empty
      local part; no whitespace at all; and a '.' in the part after the '@'
      that is neither its first nor its last character. */
  lemma AcceptedEmailShape(email: string)
    requires ValidateEmail(email).None?
    ensures 0 < IndexOf(email, '@') < |email|
    ensures multiset(email)['@'] == 1
    ensures NoSpace(email)
    ensures exists k :: 0 < k < |Domain(email)| - 1 && Domain(email)[k] == '.'
  {
    MatchesEmailIffPattern(email);
    assert MatchesEmail(email);
    var a := IndexOf(email, '@');
    var dom := Domain(email);
    var inner := email[a + 2..|email| - 1];
    var k :| 0 <= k < |inner| && inner[k] == '.';
    assert dom[k + 1] == '.';
    assert '@' !in email[..a];
    OneAt(email, a);
  }

  /** Leading whitespace is refused: " a@b.co" is rejected. */
  lemma LeadingSpaceRejected()
    ensures ValidateEmail(" a@b.co") == Some(InvalidEmail)
  {
    var s := " a@b.co";
    assert !Text.Blank(s) by { assert !Text.IsSpace(s[1]); }
    assert !NoSpace(s) by { assert Text.IsSpace(s[0]); }
    MatchesEmailIffPattern(s);
  }

  /** "a@b.co" is accepted. */
  lemma PlainEmailAccepted()
    ensures ValidateEmail("a@b.co").None?
  {
    var t := "a@b.co";
    assert IndexOf(t, '@') == 1 by {
      assert t[1..] == "@b.co";
    }
    assert t[2..] == "b.co" && t[3..5] == ".c";
    assert NoSpace(t);
    assert MatchesEmail(t);
    MatchesEmailIffPattern(t);
  }

  /** The trimmed form of " a@b.co", which the save would have sent, is
      "a@b.co": the check refuses an input the save could have repaired. */
  lemma UntrimmedEmailRejected()
    ensures ValidateEmail(" a@b.co") == Some(InvalidEmail)
    ensures Text.Trim(" a@b.co") == "a@b.co"
    ensures ValidateEmail("a@b.co").None?
  {
    LeadingSpaceRejected();
    PlainEmailAccepted();
    PaddedEmailTrimmed();
  }

  lemma PaddedEmailTrimmed()
    ensures Text.Trim(" a@b.co") == "a@b.co"
  {
    var s := " a@b.co";
    assert Text.SkipSpaces(s, 0) == 1;
    assert Text.DropSpaces(s, 1, |s|) == |s|;
    assert s[1..] == "a@b.co";
  }

  /** `saveName`: sends the trimmed name, and only when the check passes. */
  function SaveName(nameValue: string): (sent: Option<string>)
    ensures sent.Some? <==> ValidateUsername(nameValue).None?
    ensures sent.Some? ==> sent.value == Text.Trim(nameValue) && ValidateUsername(sent.value).None?
  {
    Text.TrimIdempotent(nameValue);
    if ValidateUsername(nameValue).None? then Some(Text.Trim(nameValue)) else None
  }

  /** `saveEmail`: sends the trimmed email, and only when the check passes;
      since an accepted email has no whitespace, what is sent is exactly
      what was typed. */
  function SaveEmail(emailValue: string): (sent: Option<string>)
    ensures sent.Some? <==> ValidateEmail(emailValue).None?
    ensures sent.Some? ==> sent.value == emailValue
  {
    if ValidateEmail(emailValue).None? then
      AcceptedEmailShape(emailValue);
      Text.TrimWithoutSpace(emailValue);
      Some(Text.Trim(emailValue))
    else None
  }
}
