/** Small shared vocabulary: optional values, JavaScript truthiness of
    request fields, String.prototype.trim and substring search. */
module Common {

  /** An optional value; `None` stands for a JSON field that is absent or null. */
  datatype Option<+T> = None | Some(value: T) {

    /** The carried value, or `default` when there is none (SQL `IFNULL`, JS `||`). */
    function GetOr(default: T): T
    {
      match this
      case Some(v) => v
      case None => default
    }
  }

  /** JavaScript truthiness of an optional string field: absent, null and
      the empty string are falsy, every other string is truthy. */
  predicate Truthy(v: Option<string>)
  {
    v.Some? && v.value != ""
  }

  /** The characters `String.prototype.trim` removes: ECMAScript WhiteSpace
      and LineTerminator code points. */
  predicate IsJsSpace(c: char)
  {
    || c == '\t' || c == '\n' || c == '\U{000B}' || c == '\U{000C}' || c == '\r'
    || c == ' ' || c == '\U{00A0}' || c == '\U{1680}'
    || ('\U{2000}' <= c <= '\U{200A}')
    || c == '\U{2028}' || c == '\U{2029}' || c == '\U{202F}' || c == '\U{205F}'
    || c == '\U{3000}' || c == '\U{FEFF}'
  }

  predicate AllSpace(s: string)
  {
    forall i :: 0 <= i < |s| ==> IsJsSpace(s[i])
  }

  /** How many whitespace characters `s` starts with (see `LeadingSpacesSpec`). */
  function LeadingSpaces(s: string): (n: nat)
    ensures n <= |s|
  {
    if s != [] && IsJsSpace(s[0]) then 1 + LeadingSpaces(s[1..]) else 0
  }

  /** How many whitespace characters `s` ends with (see `TrailingSpacesSpec`). */
  function TrailingSpaces(s: string): (n: nat)
    ensures n <= |s|
  {
    if s != [] && IsJsSpace(s[|s| - 1]) then 1 + TrailingSpaces(s[..|s| - 1]) else 0
  }

  /** The counted prefix is all whitespace, and the character after it is not. */
  lemma {:induction false} LeadingSpacesSpec(s: string)
    ensures AllSpace(s[..LeadingSpaces(s)])
    ensures LeadingSpaces(s) < |s| ==> !IsJsSpace(s[LeadingSpaces(s)])
  {
    var n := LeadingSpaces(s);
    if s != [] && IsJsSpace(s[0]) {
      var t := s[1..];
      LeadingSpacesSpec(t);
      forall i | 0 <= i < n ensures IsJsSpace(s[..n][i]) {
        if i > 0 {
          assert s[..n][i] == t[..n - 1][i - 1];
        }
      }
      if n < |s| {
        assert s[n] == t[n - 1];
      }
    }
  }

  /** The counted suffix is all whitespace, and the character before it is not. */
  lemma {:induction false} TrailingSpacesSpec(s: string)
    ensures AllSpace(s[|s| - TrailingSpaces(s)..])
    ensures TrailingSpaces(s) < |s| ==> !IsJsSpace(s[|s| - 1 - TrailingSpaces(s)])
  {
    var n := TrailingSpaces(s);
    if s != [] && IsJsSpace(s[|s| - 1]) {
      var p := s[..|s| - 1];
      TrailingSpacesSpec(p);
      var suffix, rest := s[|s| - n..], p[|p| - (n - 1)..];
      forall i | 0 <= i < n ensures IsJsSpace(suffix[i]) {
        if i < n - 1 {
          assert suffix[i] == rest[i];
        } else {
          assert suffix[i] == s[|s| - 1];
        }
      }
      if n < |s| {
        assert s[|s| - 1 - n] == p[|p| - 1 - (n - 1)];
      }
    }
  }

  /** `r` is `s` with whitespace dropped before position `k` and after `k + |r|`. */
  ghost predicate TrimmedAt(s: string, r: string, k: int)
  {
    && 0 <= k <= |s| - |r|
    && s[k..k + |r|] == r
    && AllSpace(s[..k])
    && AllSpace(s[k + |r|..])
  }

  /** `String.prototype.trim`: drops leading and trailing whitespace. Its
      full characterization is `TrimSpec`. */
  function Trim(s: string): (r: string)
    ensures |r| <= |s|
  {
    var t := s[LeadingSpaces(s)..];
    t[..|t| - TrailingSpaces(t)]
  }

  /** The trimmed text is the piece of `s` left after dropping only
      whitespace at both ends; it neither starts nor ends with whitespace,
      and it is empty exactly when `s` is all whitespace. */
  lemma TrimSpec(s: string)
    ensures exists k :: TrimmedAt(s, Trim(s), k)
    ensures Trim(s) != [] ==> !IsJsSpace(Trim(s)[0]) && !IsJsSpace(Trim(s)[|Trim(s)| - 1])
    ensures Trim(s) == [] <==> AllSpace(s)
  {
    var a := LeadingSpaces(s);
    var t := s[a..];
    var b := TrailingSpaces(t);
    var r := Trim(s);
    assert r == t[..|t| - b];
    LeadingSpacesSpec(s);
    TrailingSpacesSpec(t);
    assert s[a + |r|..] == t[|t| - b..];
    assert s[a..a + |r|] == r;
    assert TrimmedAt(s, r, a);
    if r != [] {
      assert r[0] == t[0] == s[a];
      assert r[|r| - 1] == t[|t| - 1 - b];
    } else {
      assert s == s[..a] + t[|t| - b..];
      AllSpaceSplit(s[..a], t[|t| - b..]);
    }
  }

  /** A concatenation is all whitespace exactly when both parts are. */
  lemma AllSpaceSplit(x: string, y: string)
    ensures AllSpace(x + y) <==> AllSpace(x) && AllSpace(y)
  {
    if AllSpace(x + y) {
      forall i | 0 <= i < |y| ensures IsJsSpace(y[i]) {
        assert (x + y)[|x| + i] == y[i];
      }
      forall i | 0 <= i < |x| ensures IsJsSpace(x[i]) {
        assert (x + y)[i] == x[i];
      }
    }
    if AllSpace(x) && AllSpace(y) {
      AllSpaceConcat(x, y);
    }
  }

  lemma AllSpaceConcat(x: string, y: string)
    requires AllSpace(x) && AllSpace(y)
    ensures AllSpace(x + y)
  {
  }

  /** `needle` sits in `hay` at position `k`. */
  ghost predicate OccursAt(needle: string, hay: string, k: int)
  {
    0 <= k <= |hay| - |needle| && hay[k..k + |needle|] == needle
  }

  /** `needle` occurs as a contiguous piece of `hay`. */
  ghost predicate Occurs(needle: string, hay: string)
  {
    exists k :: OccursAt(needle, hay, k)
  }

  /** Substring search (`hay.includes(needle)`, SQL `LIKE '%needle%'` without wildcards). */
  function Contains(hay: string, needle: string): (r: bool)
    ensures r <==> Occurs(needle, hay)
    decreases |hay|
  {
    if needle <= hay then
      assert OccursAt(needle, hay, 0);
      true
    else if |hay| <= |needle| then
      NoRoomNoOccurrence(needle, hay);
      false
    else
      var rest := Contains(hay[1..], needle);
      OccursStep(needle, hay);
      rest
  }

  lemma NoRoomNoOccurrence(needle: string, hay: string)
    requires |hay| <= |needle| && !(needle <= hay)
    ensures !Occurs(needle, hay)
  {
  }

  /** An occurrence in a longer `hay` that is not at its head is one in its tail. */
  lemma OccursStep(needle: string, hay: string)
    requires |hay| > |needle| && !(needle <= hay)
    ensures Occurs(needle, hay) <==> Occurs(needle, hay[1..])
  {
    if k :| OccursAt(needle, hay[1..], k) {
      assert hay[k + 1..k + 1 + |needle|] == hay[1..][k..k + |needle|];
      assert OccursAt(needle, hay, k + 1);
    }
    if k :| OccursAt(needle, hay, k) {
      if k != 0 {
        assert hay[1..][k - 1..k - 1 + |needle|] == hay[k..k + |needle|];
        assert OccursAt(needle, hay[1..], k - 1);
      }
    }
  }
}
