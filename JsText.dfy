/**
 * The string built-ins the quiz relies on: String.prototype.trim, toLowerCase,
 * includes and String.fromCharCode, over strings as sequences of code points.
 */
module JsText {

  /** The WhiteSpace and LineTerminator code points that trim() strips from both ends. */
  predicate IsTrimmable(c: char) {
    || c == '\t' || c == '\n' || c == '\U{B}' || c == '\U{C}' || c == '\r' || c == ' '
    || c == '\U{A0}' || c == '\U{1680}' || ('\U{2000}' <= c <= '\U{200A}')
    || c == '\U{2028}' || c == '\U{2029}' || c == '\U{202F}' || c == '\U{205F}'
    || c == '\U{3000}' || c == '\U{FEFF}'
  }

  /** `part` occurs in `s` starting at position i. */
  predicate OccursAt(s: string, part: string, i: int) {
    0 <= i <= |s| - |part| && s[i..i + |part|] == part
  }

  /** The index of the first code point at or after i that trim() keeps, or |s| if there is none. */
  function ContentStart(s: string, i: nat): (k: nat)
    requires i <= |s|
    ensures i <= k <= |s|
    ensures forall j :: i <= j < k ==> IsTrimmable(s[j])
    ensures k < |s| ==> !IsTrimmable(s[k])
    decreases |s| - i
  {
    if i < |s| && IsTrimmable(s[i]) then ContentStart(s, i + 1) else i
  }

  /** The end of the content before position j and not before lo: everything from the
      result up to j is trimmable, and the code point just before it is not. */
  function ContentEnd(s: string, lo: nat, j: nat): (k: nat)
    requires lo <= j <= |s|
    ensures lo <= k <= j
    ensures forall m :: k <= m < j ==> IsTrimmable(s[m])
    ensures k > lo ==> !IsTrimmable(s[k - 1])
  {
    if j > lo && IsTrimmable(s[j - 1]) then ContentEnd(s, lo, j - 1) else j
  }

  /** String.prototype.trim: the part of s between its leading and its trailing trimmable code points. */
  function Trim(s: string): (r: string)
    ensures exists i :: && OccursAt(s, r, i)
                        && (forall j :: 0 <= j < i ==> IsTrimmable(s[j]))
                        && (forall j :: i + |r| <= j < |s| ==> IsTrimmable(s[j]))
    ensures r != [] ==> !IsTrimmable(r[0]) && !IsTrimmable(r[|r| - 1])
    ensures r == [] <==> forall i :: 0 <= i < |s| ==> IsTrimmable(s[i])
  {
    var a := ContentStart(s, 0);
    var b := ContentEnd(s, a, |s|);
    assert OccursAt(s, s[a..b], a);
    s[a..b]
  }

  /** A trimmed string is its own trim, so trimming twice is trimming once. */
  lemma TrimIdempotent(s: string)
    ensures Trim(Trim(s)) == Trim(s)
  {
    var r := Trim(s);
    assert ContentStart(r, 0) == 0;
    assert ContentEnd(r, 0, |r|) == |r|;
    assert r[0..|r|] == r;
  }

  /** The capitals toLowerCase changes: A-Z, the Latin-1 capitals (U+00C0 to U+00DE, except
      the multiplication sign U+00D7) and the dotted capital I. */
  predicate IsCapital(c: char) {
    || 'A' <= c <= 'Z' || ('\U{C0}' <= c <= '\U{DE}' && c != '\U{D7}') || c == '\U{130}'
  }

  /** toLowerCase on one code point: a capital becomes its small letter (the dotted capital I
      becomes two code points), and any other code point stays as it is. */
  function LowerChar(c: char): (r: string)
    ensures 1 <= |r| <= 2
    ensures forall i :: 0 <= i < |r| ==> !IsCapital(r[i])
    ensures r == [c] <==> !IsCapital(c)
  {
    if 'A' <= c <= 'Z' || ('\U{C0}' <= c <= '\U{DE}' && c != '\U{D7}') then
      [(c as int + 32) as char]
    else if c == '\U{130}' then
      ['i', '\U{307}']
    else
      [c]
  }

  /** String.prototype.toLowerCase, applied code point by code point: no capital survives. */
  function ToLower(s: string): (r: string)
    ensures |s| <= |r| <= 2 * |s|
    ensures forall i :: 0 <= i < |r| ==> !IsCapital(r[i])
  {
    if s == [] then [] else LowerChar(s[0]) + ToLower(s[1..])
  }

  /** Lower-casing a string without capitals changes nothing. */
  lemma {:induction false} ToLowerUnchanged(s: string)
    requires forall i :: 0 <= i < |s| ==> !IsCapital(s[i])
    ensures ToLower(s) == s
  {
    if s != [] {
      ToLowerUnchanged(s[1..]);
      assert s == [s[0]] + s[1..];
    }
  }

  /** Lower-casing changes a string exactly when it holds a capital. */
  lemma {:induction false} ToLowerChanges(s: string)
    ensures ToLower(s) == s <==> forall i :: 0 <= i < |s| ==> !IsCapital(s[i])
  {
    if forall i :: 0 <= i < |s| ==> !IsCapital(s[i]) {
      ToLowerUnchanged(s);
    }
  }

  /** Lower-casing twice is lower-casing once. */
  lemma ToLowerIdempotent(s: string)
    ensures ToLower(ToLower(s)) == ToLower(s)
  {
    ToLowerUnchanged(ToLower(s));
  }

  /** String.prototype.includes: the empty string is included in every string, and nothing
      longer than s is included in s. */
  predicate Includes(s: string, part: string): (b: bool)
    ensures part == [] ==> b
    ensures b ==> |part| <= |s|
  {
    |part| <= |s| && (s[..|part|] == part || Includes(s[1..], part))
  }

  /** Includes holds exactly when `part` occurs at some position of `s`. */
  lemma {:induction false} IncludesMeansOccurs(s: string, part: string)
    ensures Includes(s, part) <==> exists i :: OccursAt(s, part, i)
  {
    if |part| <= |s| {
      if s[..|part|] == part {
        assert OccursAt(s, part, 0);
      } else {
        IncludesMeansOccurs(s[1..], part);
        if exists i :: OccursAt(s, part, i) {
          var i :| OccursAt(s, part, i);
          assert i != 0;
          assert OccursAt(s[1..], part, i - 1);
        }
        if Includes(s[1..], part) {
          var j :| OccursAt(s[1..], part, j);
          assert OccursAt(s, part, j + 1);
        }
      }
    } else {
      assert forall i :: !OccursAt(s, part, i);
    }
  }

  /** String.fromCharCode(97 + i): the lower-case letter naming option i. */
  function OptionLetter(i: int): (c: char)
    requires 0 <= i < 26
    ensures 'a' <= c <= 'z' && c as int - 'a' as int == i
  {
    (97 + i) as char
  }
}
