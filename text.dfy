/**
 * The string operations the application relies on: Rust's `str` ordering,
 * `split(..).last()`, `trim()`, and `i32::to_string()`.
 */
module Text {
  import opened Http

  // ---------------------------------------------------------------------
  // Ordering: `str::cmp` compares UTF-8 bytes lexicographically, which on
  // characters is lexicographic order by code point.
  // ---------------------------------------------------------------------

  /** `a <= b` in lexicographic order. */
  predicate StrLe(a: string, b: string) {
    a == [] || (b != [] && (a[0] < b[0] || (a[0] == b[0] && StrLe(a[1..], b[1..]))))
  }

  /** `a < b` in lexicographic order. */
  predicate StrLt(a: string, b: string) {
    StrLe(a, b) && a != b
  }

  lemma {:induction false} StrLeTotal(a: string, b: string)
    ensures StrLe(a, b) || StrLe(b, a)
  {
    if a != [] && b != [] && a[0] == b[0] {
      StrLeTotal(a[1..], b[1..]);
    }
  }

  lemma {:induction false} StrLeTransitive(a: string, b: string, c: string)
    requires StrLe(a, b) && StrLe(b, c)
    ensures StrLe(a, c)
  {
    if a != [] && b != [] && c != [] && a[0] == b[0] == c[0] {
      StrLeTransitive(a[1..], b[1..], c[1..]);
    }
  }

  lemma {:induction false} StrLeAntisymmetric(a: string, b: string)
    requires StrLe(a, b) && StrLe(b, a)
    ensures a == b
  {
    if a != [] && b != [] {
      StrLeAntisymmetric(a[1..], b[1..]);
      assert a == [a[0]] + a[1..] && b == [b[0]] + b[1..];
    }
  }

  // ---------------------------------------------------------------------
  // `split(sep)`: the pieces between non-overlapping occurrences of `sep`,
  // found from left to right.
  // ---------------------------------------------------------------------

  /** `sep` occurs in `s` at position `i`. */
  predicate OccursAt(s: string, sep: string, i: int) {
    0 <= i && i + |sep| <= |s| && s[i..i + |sep|] == sep
  }

  /** `sep` occurs somewhere in `s`. */
  predicate Contains(s: string, sep: string) {
    exists i :: 0 <= i <= |s| && OccursAt(s, sep, i)
  }

  /** The pieces of `s` glued back together with `sep` between them. */
  function Join(parts: seq<string>, sep: string): string
    requires parts != []
  {
    if |parts| == 1 then parts[0] else parts[0] + sep + Join(parts[1..], sep)
  }

  function Split(s: string, sep: string): (parts: seq<string>)
    requires sep != []
    ensures parts != []
    decreases |s|
  {
    if |s| < |sep| then [s]
    else if s[..|sep|] == sep then [[]] + Split(s[|sep|..], sep)
    else
      var rest := Split(s[1..], sep);
      [[s[0]] + rest[0]] + rest[1..]
  }

  /** Splitting and joining again gives back the original string. */
  lemma {:induction false} SplitJoin(s: string, sep: string)
    requires sep != []
    ensures Join(Split(s, sep), sep) == s
    decreases |s|
  {
    if |s| < |sep| {
    } else if s[..|sep|] == sep {
      var tail := s[|sep|..];
      SplitJoin(tail, sep);
      assert Split(s, sep) == [[]] + Split(tail, sep);
      assert s == sep + tail;
    } else {
      var rest := Split(s[1..], sep);
      var head := [s[0]] + rest[0];
      var parts := [head] + rest[1..];
      assert Split(s, sep) == parts;
      SplitJoin(s[1..], sep);
      assert s == [s[0]] + s[1..];
      if |rest| == 1 {
        assert Join(parts, sep) == head;
        assert Join(rest, sep) == rest[0];
      } else {
        assert parts[1..] == rest[1..];
        assert Join(parts, sep) == head + sep + Join(rest[1..], sep);
        assert Join(rest, sep) == rest[0] + sep + Join(rest[1..], sep);
      }
    }
  }

  /** No piece contains the separator. */
  lemma {:induction false} SplitPiecesFree(s: string, sep: string)
    requires sep != []
    ensures forall k :: 0 <= k < |Split(s, sep)| ==> !Contains(Split(s, sep)[k], sep)
    decreases |s|
  {
    var parts := Split(s, sep);
    if |s| < |sep| {
      forall i | OccursAt(s, sep, i) ensures false { }
    } else if s[..|sep|] == sep {
      SplitPiecesFree(s[|sep|..], sep);
      forall k | 0 <= k < |parts| ensures !Contains(parts[k], sep) {
        if k == 0 {
          forall i | OccursAt(parts[0], sep, i) ensures false { }
        } else {
          assert parts[k] == Split(s[|sep|..], sep)[k - 1];
        }
      }
    } else {
      var rest := Split(s[1..], sep);
      SplitPiecesFree(s[1..], sep);
      SplitJoin(s[1..], sep);
      var head := [s[0]] + rest[0];
      assert !Contains(rest[0], sep);
      PrefixOfJoin(rest, sep);
      forall i | OccursAt(head, sep, i) ensures false {
        if i > 0 {
          assert head[i..i + |sep|] == rest[0][i - 1..i - 1 + |sep|];
          assert OccursAt(rest[0], sep, i - 1);
        }
      }
      forall k | 0 <= k < |parts| ensures !Contains(parts[k], sep) {
        if k > 0 {
          assert parts[k] == rest[k];
        }
      }
    }
  }

  /** The first piece is a prefix of the joined string. */
  lemma PrefixOfJoin(parts: seq<string>, sep: string)
    requires parts != []
    ensures |parts[0]| <= |Join(parts, sep)| && Join(parts, sep)[..|parts[0]|] == parts[0]
  {
  }

  /**
   * `split(sep).last()`: the text after the last occurrence of `sep`, or
   * all of `s` when `sep` does not occur. `last()` of a split never fails.
   */
  function LastPiece(s: string, sep: string): (piece: string)
    requires sep != []
  {
    var parts := Split(s, sep);
    parts[|parts| - 1]
  }

  /** The last piece is a suffix of `s` that holds no `sep`; unless it is all of `s`, `sep` stands right before it. */
  lemma {:induction false} LastPieceIsSuffix(s: string, sep: string)
    requires sep != []
    ensures var piece := LastPiece(s, sep);
            && |piece| <= |s|
            && s[|s| - |piece|..] == piece
            && !Contains(piece, sep)
            && (!Contains(s, sep) ==> piece == s)
            && (Contains(s, sep) ==> |piece| + |sep| <= |s| && s[|s| - |piece| - |sep|..|s| - |piece|] == sep)
  {
    var parts := Split(s, sep);
    SplitJoin(s, sep);
    SplitPiecesFree(s, sep);
    JoinSuffix(parts, sep);
    if |parts| > 1 {
      var piece := parts[|parts| - 1];
      assert OccursAt(s, sep, |s| - |piece| - |sep|);
    }
  }

  /** Joining ends with the last piece, preceded by `sep` when there are several. */
  lemma {:induction false} JoinSuffix(parts: seq<string>, sep: string)
    requires parts != []
    ensures var j, last := Join(parts, sep), parts[|parts| - 1];
            && |last| <= |j| && j[|j| - |last|..] == last
            && (|parts| > 1 ==> |last| + |sep| <= |j| && j[|j| - |last| - |sep|..|j| - |last|] == sep)
  {
    if |parts| > 1 {
      JoinSuffix(parts[1..], sep);
      var j := Join(parts, sep);
      var tail := Join(parts[1..], sep);
      assert j == parts[0] + sep + tail;
      assert parts[1..][|parts[1..]| - 1] == parts[|parts| - 1];
      if |parts| == 2 {
        assert tail == parts[1];
      }
    }
  }

  // ---------------------------------------------------------------------
  // `trim()`: strip leading and trailing characters with the Unicode
  // White_Space property.
  // ---------------------------------------------------------------------

  predicate IsWhitespace(c: char) {
    || ('\U{9}' <= c <= '\U{D}') || c == '\U{20}' || c == '\U{85}' || c == '\U{A0}'
    || c == '\U{1680}' || ('\U{2000}' <= c <= '\U{200A}') || c == '\U{2028}' || c == '\U{2029}'
    || c == '\U{202F}' || c == '\U{205F}' || c == '\U{3000}'
  }

  /** Where the text starts once leading whitespace is dropped. */
  function TrimFrom(s: string): (a: nat)
    ensures a <= |s|
    ensures forall k :: 0 <= k < a ==> IsWhitespace(s[k])
    ensures a < |s| ==> !IsWhitespace(s[a])
  {
    if s != [] && IsWhitespace(s[0]) then 1 + TrimFrom(s[1..]) else 0
  }

  /** Where the text ends once trailing whitespace is dropped, no earlier than `a`. */
  function TrimTo(s: string, a: nat): (b: nat)
    requires a <= |s|
    ensures a <= b <= |s|
    ensures forall k :: b <= k < |s| ==> IsWhitespace(s[k])
    ensures a < b ==> !IsWhitespace(s[b - 1])
    decreases |s|
  {
    if a < |s| && IsWhitespace(s[|s| - 1]) then TrimTo(s[..|s| - 1], a) else |s|
  }

  /**
   * `str::trim`: the slice of `s` between its leading and its trailing
   * whitespace; it neither starts nor ends with whitespace.
   */
  function Trim(s: string): (r: string)
    ensures r == s[TrimFrom(s)..TrimTo(s, TrimFrom(s))]
    ensures r != [] ==> !IsWhitespace(r[0]) && !IsWhitespace(r[|r| - 1])
  {
    var a := TrimFrom(s);
    var b := TrimTo(s, a);
    assert a < b ==> s[a..b][0] == s[a] && s[a..b][b - a - 1] == s[b - 1];
    s[a..b]
  }

  // ---------------------------------------------------------------------
  // `i32::to_string()`: decimal digits, with a leading '-' when negative.
  // ---------------------------------------------------------------------

  function DigitChar(d: nat): char
    requires d < 10
  {
    ('0' as int + d) as char
  }

  function DigitValue(c: char): nat
  {
    if '0' <= c <= '9' then (c - '0') as nat else 0
  }

  predicate IsDigit(c: char) {
    '0' <= c <= '9'
  }

  function NatToString(n: nat): (s: string)
    ensures s != [] && forall k :: 0 <= k < |s| ==> IsDigit(s[k])
  {
    if n < 10 then [DigitChar(n)] else NatToString(n / 10) + [DigitChar(n % 10)]
  }

  /** The decimal text of an `i32`. */
  function IntToString(n: i32): (s: string)
    ensures s != []
  {
    if n < 0 then "-" + NatToString(-(n as int)) else NatToString(n as int)
  }

  /** The value of a string of decimal digits. */
  function ParseNat(s: string): nat
  {
    if s == [] then 0 else ParseNat(s[..|s| - 1]) * 10 + DigitValue(s[|s| - 1])
  }

  /** The value of a decimal text with an optional leading '-'. */
  function ParseInt(s: string): int
  {
    if s != [] && s[0] == '-' then -(ParseNat(s[1..]) as int) else ParseNat(s) as int
  }

  lemma {:induction false} ParseNatToString(n: nat)
    ensures ParseNat(NatToString(n)) == n
  {
    if n >= 10 {
      var s := NatToString(n);
      ParseNatToString(n / 10);
      assert s[..|s| - 1] == NatToString(n / 10);
    }
  }

  /** Reading the decimal text of an id gives the id back. */
  lemma IntToStringRoundTrip(n: i32)
    ensures ParseInt(IntToString(n)) == n as int
  {
    if n < 0 {
      ParseNatToString(-(n as int));
      assert IntToString(n)[1..] == NatToString(-(n as int));
    } else {
      ParseNatToString(n as int);
    }
  }

  /** Distinct ids have distinct decimal texts. */
  lemma IntToStringInjective(a: i32, b: i32)
    requires IntToString(a) == IntToString(b)
    ensures a == b
  {
    IntToStringRoundTrip(a);
    IntToStringRoundTrip(b);
  }
}
