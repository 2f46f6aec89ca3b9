/** The JavaScript string operations the record pipeline relies on: `trim`, `length`,
    `split` on one character, and the map/filter/slice chains applied to lists of strings. */
module Text {

  /** The code points `String.prototype.trim` removes: ECMAScript's WhiteSpace (TAB, VT, FF,
      SP, NBSP, ZWNBSP and the Unicode space separators) and LineTerminator (LF, CR, LS, PS). */
  predicate IsSpace(c: char) {
    var n := c as int;
    n == 0x09 || n == 0x0A || n == 0x0B || n == 0x0C || n == 0x0D || n == 0x20 || n == 0xA0
    || n == 0x1680 || (0x2000 <= n <= 0x200A) || n == 0x2028 || n == 0x2029
    || n == 0x202F || n == 0x205F || n == 0x3000 || n == 0xFEFF
  }

  predicate AllSpace(s: string) {
    forall i :: 0 <= i < |s| ==> IsSpace(s[i])
  }

  /** Neither end of `s` is whitespace. */
  predicate IsTrimmed(s: string) {
    s == [] || (!IsSpace(s[0]) && !IsSpace(s[|s| - 1]))
  }

  /** `r` is `s` with the whitespace at both ends removed: `s` is all-space, then `r`,
      then all-space, and `r` has no whitespace at its ends. */
  predicate IsTrimOf(s: string, r: string) {
    IsTrimmed(r) &&
    exists i :: 0 <= i <= |s| - |r| && r == s[i..i + |r|] && AllSpace(s[..i]) && AllSpace(s[i + |r|..])
  }

  /** Number of whitespace characters at the start of `s`. */
  function LeadingSpaces(s: string): (k: nat)
    ensures k <= |s| && AllSpace(s[..k])
    ensures k < |s| ==> !IsSpace(s[k])
  {
    if s != [] && IsSpace(s[0]) then
      var k := 1 + LeadingSpaces(s[1..]);
      assert forall i :: 1 <= i < k ==> s[..k][i] == s[1..][..k - 1][i - 1];
      k
    else 0
  }

  /** Number of whitespace characters at the end of `s`. */
  function TrailingSpaces(s: string): (k: nat)
    ensures k <= |s| && AllSpace(s[|s| - k..])
    ensures k < |s| ==> !IsSpace(s[|s| - 1 - k])
  {
    if s != [] && IsSpace(s[|s| - 1]) then
      var init := s[..|s| - 1];
      var k := 1 + TrailingSpaces(init);
      assert s[|s| - k..] == init[|init| - (k - 1)..] + [s[|s| - 1]];
      k
    else 0
  }

  /** `s.trim()`. */
  function Trim(s: string): (r: string)
    ensures |r| <= |s| && IsTrimmed(r)
  {
    var t := s[LeadingSpaces(s)..];
    t[..|t| - TrailingSpaces(t)]
  }

  /** The trim is what is left between the leading and the trailing whitespace. */
  lemma TrimIsTrimOf(s: string)
    ensures IsTrimOf(s, Trim(s))
  {
    var lead := LeadingSpaces(s);
    var t := s[lead..];
    var trail := TrailingSpaces(t);
    var r := t[..|t| - trail];
    assert r == Trim(s);
    assert r == s[lead..lead + |r|];
    assert s[lead + |r|..] == t[|t| - trail..];
    assert AllSpace(s[..lead]) && AllSpace(s[lead + |r|..]);
  }

  /** A non-space character preceded only by whitespace fixes the leading count. */
  lemma {:induction false} LeadingSpacesAt(s: string, i: nat)
    requires i < |s| && AllSpace(s[..i]) && !IsSpace(s[i])
    ensures LeadingSpaces(s) == i
  {
    if i > 0 {
      assert s[..i][0] == s[0];
      assert s[1..][..i - 1] == s[..i][1..];
      LeadingSpacesAt(s[1..], i - 1);
    }
  }

  /** A non-space character followed only by whitespace fixes the trailing count. */
  lemma {:induction false} TrailingSpacesAt(s: string, j: nat)
    requires j < |s| && AllSpace(s[|s| - j..]) && !IsSpace(s[|s| - 1 - j])
    ensures TrailingSpaces(s) == j
  {
    if j > 0 {
      var init := s[..|s| - 1];
      assert s[|s| - j..][j - 1] == s[|s| - 1];
      assert init[|init| - (j - 1)..] == s[|s| - j..][..j - 1];
      TrailingSpacesAt(init, j - 1);
    }
  }

  /** An all-space string has nothing left after its leading whitespace. */
  lemma {:induction false} LeadingSpacesOfAllSpace(s: string)
    requires AllSpace(s)
    ensures LeadingSpaces(s) == |s|
  {
    if s != [] {
      assert AllSpace(s[1..]) by {
        forall k | 0 <= k < |s[1..]| ensures IsSpace(s[1..][k]) { assert s[1..][k] == s[k + 1]; }
      }
      LeadingSpacesOfAllSpace(s[1..]);
    }
  }

  /** When the trimmed part is empty, the two all-space ends make up the whole string. */
  lemma EmptyTrimIsAllSpace(s: string)
    requires IsTrimOf(s, "")
    ensures AllSpace(s)
  {
    var i :| 0 <= i <= |s| && AllSpace(s[..i]) && AllSpace(s[i..]);
    forall j | 0 <= j < |s| ensures IsSpace(s[j]) {
      if j < i { assert s[..i][j] == s[j]; } else { assert s[i..][j - i] == s[j]; }
    }
  }

  /** A non-empty trimmed infix with all-space surroundings is the trim. */
  lemma TrimAt(s: string, i: nat, r: string)
    requires r != [] && IsTrimmed(r)
    requires i + |r| <= |s| && r == s[i..i + |r|]
    requires AllSpace(s[..i]) && AllSpace(s[i + |r|..])
    ensures r == Trim(s)
  {
    assert s[i] == r[0];
    LeadingSpacesAt(s, i);
    var t := s[i..];
    var j := |s| - i - |r|;
    assert t[|t| - j..] == s[i + |r|..];
    assert t[|t| - 1 - j] == r[|r| - 1];
    TrailingSpacesAt(t, j);
    assert t[..|t| - j] == r;
  }

  /** The trim of a string is determined by the decomposition `IsTrimOf` describes. */
  lemma TrimOfIsUnique(s: string, r: string)
    requires IsTrimOf(s, r)
    ensures r == Trim(s)
  {
    if r == [] {
      EmptyTrimIsAllSpace(s);
      LeadingSpacesOfAllSpace(s);
    } else {
      var i :| 0 <= i <= |s| - |r| && r == s[i..i + |r|] && AllSpace(s[..i]) && AllSpace(s[i + |r|..]);
      TrimAt(s, i, r);
    }
  }

  /** A string trims to empty exactly when it is all whitespace. */
  lemma TrimIsEmptyIff(s: string)
    ensures Trim(s) == "" <==> AllSpace(s)
  {
    if AllSpace(s) {
      assert s[..0] == [] && s[0..0] == [];
      assert IsTrimOf(s, "");
      TrimOfIsUnique(s, "");
    }
    if Trim(s) == "" {
      TrimIsTrimOf(s);
      EmptyTrimIsAllSpace(s);
    }
  }

  /** A string without whitespace at its ends is its own trim. */
  lemma TrimOfTrimmed(s: string)
    requires IsTrimmed(s)
    ensures Trim(s) == s
  {
    assert s[..0] == [] && s[0..|s|] == s && s[|s|..] == [];
    assert IsTrimOf(s, s);
    TrimOfIsUnique(s, s);
  }

  /** Trimming is idempotent. */
  lemma TrimIdempotent(s: string)
    ensures Trim(Trim(s)) == Trim(s)
  {
    TrimOfTrimmed(Trim(s));
  }

  /** Trimming only removes characters: every character of the trim occurs in the input. */
  lemma TrimKeepsCharacters(s: string)
    ensures forall c :: c in Trim(s) ==> c in s
  {
    var t := s[LeadingSpaces(s)..];
    assert Trim(s) == t[..|t| - TrailingSpaces(t)];
    forall c | c in Trim(s) ensures c in s {
      var k :| 0 <= k < |Trim(s)| && Trim(s)[k] == c;
      assert c == s[LeadingSpaces(s) + k];
    }
  }

  /** JavaScript's `s.length`: the number of UTF-16 code units, so a scalar value above
      U+FFFF counts twice. */
  function Utf16Length(s: string): (n: nat)
    ensures |s| <= n <= 2 * |s|
  {
    if s == [] then 0 else (if s[0] as int > 0xFFFF then 2 else 1) + Utf16Length(s[1..])
  }

  /** Every character lies in the Basic Multilingual Plane (one UTF-16 code unit each). */
  predicate InBmp(s: string) {
    forall i :: 0 <= i < |s| ==> s[i] as int <= 0xFFFF
  }

  lemma {:induction false} BmpLength(s: string)
    requires InBmp(s)
    ensures Utf16Length(s) == |s|
  {
    if s != [] {
      assert InBmp(s[1..]) by {
        forall i | 0 <= i < |s[1..]| ensures s[1..][i] as int <= 0xFFFF { assert s[1..][i] == s[i + 1]; }
      }
      BmpLength(s[1..]);
    }
  }

  /** `pieces.join(sep)` for a one-character separator. */
  function Join(pieces: seq<string>, sep: char): string {
    if |pieces| == 0 then ""
    else if |pieces| == 1 then pieces[0]
    else pieces[0] + [sep] + Join(pieces[1..], sep)
  }

  /** `s.split(sep)` for a one-character separator: the maximal separator-free pieces between
      separators, in order; the empty string gives one empty piece. */
  function Split(s: string, sep: char): (pieces: seq<string>)
    ensures |pieces| >= 1
    ensures forall i :: 0 <= i < |pieces| ==> sep !in pieces[i]
  {
    if s == [] then [""]
    else
      var rest := Split(s[1..], sep);
      if s[0] == sep then [""] + rest else [[s[0]] + rest[0]] + rest[1..]
  }

  /** Joining the pieces again with the separator gives back the original string. */
  lemma {:induction false} JoinSplit(s: string, sep: char)
    ensures Join(Split(s, sep), sep) == s
  {
    if s != [] {
      var rest := Split(s[1..], sep);
      JoinSplit(s[1..], sep);
      if s[0] == sep {
        assert ([""] + rest)[1..] == rest;
      } else {
        var pieces := [[s[0]] + rest[0]] + rest[1..];
        assert pieces[1..] == rest[1..];
        if |rest| > 1 {
          assert Join(rest, sep) == rest[0] + [sep] + Join(rest[1..], sep);
        }
      }
    }
  }

  lemma {:induction false} SplitPrefix(p: string, tail: string, sep: char)
    requires sep !in p
    ensures Split(p + tail, sep) == [p + Split(tail, sep)[0]] + Split(tail, sep)[1..]
  {
    if p == [] {
      assert p + tail == tail;
      var x := Split(tail, sep);
      assert p + x[0] == x[0];
      assert [x[0]] + x[1..] == x;
    } else {
      assert (p + tail)[1..] == p[1..] + tail;
      assert (p + tail)[0] == p[0];
      SplitPrefix(p[1..], tail, sep);
      assert [p[0]] + (p[1..] + Split(tail, sep)[0]) == p + Split(tail, sep)[0];
    }
  }

  /** Splitting separator-free pieces joined by the separator gives back the pieces. */
  lemma {:induction false} SplitJoin(pieces: seq<string>, sep: char)
    requires |pieces| >= 1
    requires forall i :: 0 <= i < |pieces| ==> sep !in pieces[i]
    ensures Split(Join(pieces, sep), sep) == pieces
  {
    var p := pieces[0];
    if |pieces| == 1 {
      SplitPrefix(p, "", sep);
      assert p + "" == p;
    } else {
      var rest := Join(pieces[1..], sep);
      SplitJoin(pieces[1..], sep);
      assert p + [sep] + rest == p + ([sep] + rest);
      SplitPrefix(p, [sep] + rest, sep);
      assert ([sep] + rest)[1..] == rest;
      var y := Split([sep] + rest, sep);
      assert y == [""] + pieces[1..];
      assert y[0] == "" && y[1..] == pieces[1..];
      assert p + y[0] == p;
      assert [p] + pieces[1..] == pieces;
    }
  }

  /** `a` is `b` with some elements left out, the rest in their original order. */
  predicate IsSubsequence<T(==)>(a: seq<T>, b: seq<T>)
    decreases |b|
  {
    if a == [] then true
    else if b == [] then false
    else if a[0] == b[0] then IsSubsequence(a[1..], b[1..])
    else IsSubsequence(a, b[1..])
  }

  /** `.filter(Boolean)` on strings: keeps the non-empty ones, in order, as often as they occur. */
  function DropEmpty(s: seq<string>): (r: seq<string>)
    ensures forall i :: 0 <= i < |r| ==> r[i] != ""
    ensures IsSubsequence(r, s)
    ensures forall t :: t != "" ==> multiset(r)[t] == multiset(s)[t]
  {
    if s == [] then []
    else
      assert s == [s[0]] + s[1..];
      if s[0] == "" then DropEmpty(s[1..]) else [s[0]] + DropEmpty(s[1..])
  }

  /** `.map((x) => x.trim())`. */
  function MapTrim(s: seq<string>): seq<string> {
    seq(|s|, i requires 0 <= i < |s| => Trim(s[i]))
  }

  /** `.slice(0, n)`. */
  function Take<T>(s: seq<T>, n: nat): seq<T> {
    if |s| <= n then s else s[..n]
  }

  /** `.map(trim).filter(Boolean)`: every survivor is trimmed and non-empty, an order-preserving
      selection of the trimmed inputs that keeps every non-empty one. */
  lemma TrimmedNonEmptyPieces(s: seq<string>)
    ensures forall i :: 0 <= i < |DropEmpty(MapTrim(s))| ==>
      DropEmpty(MapTrim(s))[i] != "" && IsTrimmed(DropEmpty(MapTrim(s))[i])
    ensures IsSubsequence(DropEmpty(MapTrim(s)), MapTrim(s))
  {
    var m := MapTrim(s);
    var r := DropEmpty(m);
    forall i | 0 <= i < |r| ensures IsTrimmed(r[i]) {
      assert r[i] in multiset(r);
      assert r[i] in multiset(m);
      assert r[i] in m;
      var j :| 0 <= j < |m| && m[j] == r[i];
      assert m[j] == Trim(s[j]);
    }
  }
}
