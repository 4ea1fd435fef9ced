/** JavaScript string helpers: the whitespace set shared by `String.prototype.trim`
    and the regular-expression class `\s`, and `trim` itself. */
module Text {

  /** ECMAScript WhiteSpace and LineTerminator code points: tab, vertical tab,
      form feed, the byte-order mark, every space separator, line feed,
      carriage return, line separator and paragraph separator. */
  const SpaceChars: set<char> := {
    '\t', '\U{000B}', '\U{000C}', '\U{FEFF}', ' ', '\U{00A0}', '\U{1680}',
    '\U{202F}', '\U{205F}', '\U{3000}', '\n', '\r', '\U{2028}', '\U{2029}'
  }

  predicate IsSpace(c: char) {
    c in SpaceChars || '\U{2000}' <= c <= '\U{200A}'
  }

  /** Every character of `s` is whitespace (so the empty string is blank). */
  predicate Blank(s: string) {
    forall i :: 0 <= i < |s| ==> IsSpace(s[i])
  }

  /** Some character of `s` is not whitespace. */
  predicate HasNonSpace(s: string)
    decreases |s|
  {
    |s| > 0 && (!IsSpace(s[0]) || HasNonSpace(s[1..]))
  }

  lemma {:induction false} HasNonSpaceIffNotBlank(s: string)
    ensures HasNonSpace(s) <==> !Blank(s)
    decreases |s|
  {
    if |s| > 0 {
      HasNonSpaceIffNotBlank(s[1..]);
      if !IsSpace(s[0]) {
        assert !Blank(s);
      } else if Blank(s[1..]) {
        assert Blank(s) by {
          forall i | 0 <= i < |s| ensures IsSpace(s[i]) {
            if i > 0 { assert s[i] == s[1..][i - 1]; }
          }
        }
      } else {
        var i :| 0 <= i < |s[1..]| && !IsSpace(s[1..][i]);
        assert !IsSpace(s[i + 1]);
      }
    }
  }

  /** The first position at or after `k` that is not whitespace; `|s|` when
      the rest of `s` is all whitespace. */
  function SkipSpaces(s: string, k: nat): (j: nat)
    requires k <= |s|
    ensures k <= j <= |s|
    ensures forall t :: k <= t < j ==> IsSpace(s[t])
    ensures j < |s| ==> !IsSpace(s[j])
    decreases |s| - k
  {
    if k == |s| || !IsSpace(s[k]) then k else SkipSpaces(s, k + 1)
  }

  /** The end of `s[lo..e]` once its trailing whitespace is dropped: every
      position from the result up to `e` is whitespace, and the one just
      before the result, if it is past `lo`, is not. */
  function DropSpaces(s: string, lo: nat, e: nat): (j: nat)
    requires lo <= e <= |s|
    ensures lo <= j <= e
    ensures forall t :: j <= t < e ==> IsSpace(s[t])
    ensures j > lo ==> !IsSpace(s[j - 1])
    decreases e - lo
  {
    if e == lo || !IsSpace(s[e - 1]) then e else DropSpaces(s, lo, e - 1)
  }

  /** `String.prototype.trim`: the slice of `s` from its first non-whitespace
      character on, with whitespace removed from both ends. Only whitespace is
      cut, the result neither starts nor
      ends with whitespace, and it is empty exactly when `s` is blank. */
  function Trim(s: string): (r: string)
    ensures SkipSpaces(s, 0) + |r| <= |s| && r == s[SkipSpaces(s, 0)..SkipSpaces(s, 0) + |r|]
    ensures forall t :: 0 <= t < SkipSpaces(s, 0) ==> IsSpace(s[t])
    ensures forall t :: SkipSpaces(s, 0) + |r| <= t < |s| ==> IsSpace(s[t])
    ensures r == [] || (!IsSpace(r[0]) && !IsSpace(r[|r| - 1]))
    ensures r == [] <==> Blank(s)
  {
    var a := SkipSpaces(s, 0);
    var b := DropSpaces(s, a, |s|);
    var r := s[a..b];
    assert r != [] ==> r[0] == s[a] && r[|r| - 1] == s[b - 1];
    assert r == [] ==> a == |s|;
    r
  }

  /** Trimming twice is trimming once. */
  lemma TrimIdempotent(s: string)
    ensures Trim(Trim(s)) == Trim(s)
  {
    var r := Trim(s);
    if r != [] {
      assert SkipSpaces(r, 0) == 0;
      assert DropSpaces(r, 0, |r|) == |r|;
    }
  }

  /** A string without whitespace is its own trim. */
  lemma TrimWithoutSpace(s: string)
    requires forall i :: 0 <= i < |s| ==> !IsSpace(s[i])
    ensures Trim(s) == s
  {
    if s != [] {
      assert SkipSpaces(s, 0) == 0;
      assert DropSpaces(s, 0, |s|) == |s|;
    }
  }
}
