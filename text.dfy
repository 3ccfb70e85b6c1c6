/**
 * The JavaScript string operations the handlers and components rely on:
 * `includes`, `split(sep)` followed by `pop()`, `join`, `trim`,
 * `toLowerCase` (ASCII letters only) and the decimal rendering of a number.
 */
module Text {

  // ---------------------------------------------------------------------------
  // Substrings
  // ---------------------------------------------------------------------------

  /** `sub` occurs in `s` starting at index `i`. */
  predicate ContainsAt(s: string, sub: string, i: int) {
    0 <= i && i + |sub| <= |s| && s[i..i + |sub|] == sub
  }

  /** `s.includes(sub)`; the empty string is contained in every string. */
  predicate Contains(s: string, sub: string) {
    exists i | 0 <= i <= |s| - |sub| :: ContainsAt(s, sub, i)
  }

  lemma ContainsStart(a: string, b: string)
    ensures Contains(a + b, a)
  {
    assert (a + b)[0..|a|] == a;
    assert ContainsAt(a + b, a, 0);
  }

  /** An occurrence in `t` is an occurrence in `a + t`. */
  lemma ContainsLater(a: string, t: string, sub: string)
    requires Contains(t, sub)
    ensures Contains(a + t, sub)
  {
    var i :| 0 <= i <= |t| - |sub| && ContainsAt(t, sub, i);
    assert (a + t)[|a| + i..|a| + i + |sub|] == t[i..i + |sub|];
    assert ContainsAt(a + t, sub, |a| + i);
  }

  lemma ContainsEmpty(s: string)
    ensures Contains(s, "")
  {
    assert ContainsAt(s, "", 0);
  }

  /** When `sub` does not start at index 0, it occurs in `s` iff it occurs in `s[1..]`. */
  lemma ContainsTail(s: string, sub: string)
    requires |s| >= 1 && !ContainsAt(s, sub, 0)
    ensures Contains(s, sub) <==> Contains(s[1..], sub)
  {
    if Contains(s, sub) {
      var i :| 0 <= i <= |s| - |sub| && ContainsAt(s, sub, i);
      assert s[1..][i - 1..i - 1 + |sub|] == s[i..i + |sub|];
      assert ContainsAt(s[1..], sub, i - 1);
    }
    if Contains(s[1..], sub) {
      var i :| 0 <= i <= |s[1..]| - |sub| && ContainsAt(s[1..], sub, i);
      assert s[1..][i..i + |sub|] == s[i + 1..i + 1 + |sub|];
      assert ContainsAt(s, sub, i + 1);
    }
  }

  /** A one-character string occurs in `s` exactly when that character does. */
  lemma ContainsChar(s: string, c: char)
    ensures Contains(s, [c]) <==> c in s
  {
    if c in s {
      var i :| 0 <= i < |s| && s[i] == c;
      assert s[i..i + 1] == [c];
      assert ContainsAt(s, [c], i);
    }
    if Contains(s, [c]) {
      var i :| 0 <= i <= |s| - 1 && ContainsAt(s, [c], i);
      assert s[i..i + 1][0] == s[i];
    }
  }

  // ---------------------------------------------------------------------------
  // split / join / pop
  // ---------------------------------------------------------------------------

  /**
   * `s.split(sep)` for a non-empty string separator: the separator is looked
   * for from left to right, and each match ends one piece.
   */
  function Split(s: string, sep: string): (pieces: seq<string>)
    requires sep != ""
    ensures |pieces| >= 1
    decreases |s|
  {
    if |s| < |sep| then [s]
    else if s[..|sep|] == sep then [""] + Split(s[|sep|..], sep)
    else
      var rest := Split(s[1..], sep);
      [[s[0]] + rest[0]] + rest[1..]
  }

  /** `pieces.join(sep)`. */
  function Join(pieces: seq<string>, sep: string): string
    decreases |pieces|
  {
    if |pieces| == 0 then ""
    else if |pieces| == 1 then pieces[0]
    else pieces[0] + sep + Join(pieces[1..], sep)
  }

  /** `s.split(sep).pop()`: the piece after the last match, or `s` itself. */
  function LastPiece(s: string, sep: string): string
    requires sep != ""
  {
    var pieces := Split(s, sep);
    pieces[|pieces| - 1]
  }

  /** A leading empty piece contributes just one separator. */
  lemma JoinEmptyFirst(rest: seq<string>, sep: string)
    requires |rest| >= 1
    ensures Join([""] + rest, sep) == sep + Join(rest, sep)
  {
    assert ([""] + rest)[1..] == rest;
  }

  /** Prepending a character to the first piece prepends it to the joined string. */
  lemma JoinConsFirst(c: char, rest: seq<string>, sep: string)
    requires |rest| >= 1
    ensures Join([[c] + rest[0]] + rest[1..], sep) == [c] + Join(rest, sep)
  {
    var pieces := [[c] + rest[0]] + rest[1..];
    if |rest| > 1 {
      assert pieces[1..] == rest[1..];
      assert Join(pieces, sep) == ([c] + rest[0]) + sep + Join(rest[1..], sep);
      assert Join(rest, sep) == rest[0] + sep + Join(rest[1..], sep);
      assert ([c] + rest[0]) + sep + Join(rest[1..], sep) == [c] + (rest[0] + sep + Join(rest[1..], sep));
    }
  }

  /** Joining the pieces with the separator gives back the string that was split. */
  lemma {:induction false} JoinSplit(s: string, sep: string)
    requires sep != ""
    ensures Join(Split(s, sep), sep) == s
    decreases |s|
  {
    if |s| < |sep| {
    } else if s[..|sep|] == sep {
      var tail := s[|sep|..];
      JoinSplit(tail, sep);
      JoinEmptyFirst(Split(tail, sep), sep);
      assert s == sep + tail;
    } else {
      JoinSplit(s[1..], sep);
      JoinConsFirst(s[0], Split(s[1..], sep), sep);
      assert s == [s[0]] + s[1..];
    }
  }

  /** Splitting yields a single piece exactly when the separator does not occur. */
  lemma {:induction false} SplitSingleIffAbsent(s: string, sep: string)
    requires sep != ""
    ensures |Split(s, sep)| == 1 <==> !Contains(s, sep)
    ensures |Split(s, sep)| == 1 ==> Split(s, sep) == [s]
    decreases |s|
  {
    if |s| < |sep| {
    } else if s[..|sep|] == sep {
      assert ContainsAt(s, sep, 0);
    } else {
      SplitSingleIffAbsent(s[1..], sep);
      ContainsTail(s, sep);
      assert s == [s[0]] + s[1..];
    }
  }

  /** The popped piece is a suffix of the input. */
  lemma {:induction false} LastPieceIsSuffix(s: string, sep: string)
    requires sep != ""
    ensures |LastPiece(s, sep)| <= |s|
    ensures LastPiece(s, sep) == s[|s| - |LastPiece(s, sep)|..]
    decreases |s|
  {
    if |s| < |sep| {
    } else if s[..|sep|] == sep {
      var tail := s[|sep|..];
      LastPieceIsSuffix(tail, sep);
      assert LastPiece(s, sep) == LastPiece(tail, sep);
      assert tail[|tail| - |LastPiece(tail, sep)|..] == s[|s| - |LastPiece(tail, sep)|..];
    } else {
      var tail := s[1..];
      LastPieceStep(s, sep);
      if |Split(tail, sep)| > 1 {
        LastPieceIsSuffix(tail, sep);
        assert tail[|tail| - |LastPiece(tail, sep)|..] == s[|s| - |LastPiece(tail, sep)|..];
      }
    }
  }

  /** Without a match at the start, the last piece is the tail's, or the whole string when the tail has no match. */
  lemma LastPieceStep(s: string, sep: string)
    requires sep != "" && |s| >= |sep| && s[..|sep|] != sep
    ensures |Split(s[1..], sep)| > 1 ==> LastPiece(s, sep) == LastPiece(s[1..], sep)
    ensures |Split(s[1..], sep)| == 1 ==> LastPiece(s, sep) == s
  {
    var rest := Split(s[1..], sep);
    var pieces := [[s[0]] + rest[0]] + rest[1..];
    assert Split(s, sep) == pieces;
    if |rest| == 1 {
      SplitSingleIffAbsent(s[1..], sep);
      assert pieces == [[s[0]] + s[1..]];
      assert s == [s[0]] + s[1..];
    } else {
      assert pieces[|pieces| - 1] == rest[|rest| - 1];
    }
  }

  /** The popped piece never contains the separator. */
  lemma {:induction false} LastPieceExcludesSeparator(s: string, sep: string)
    requires sep != ""
    ensures !Contains(LastPiece(s, sep), sep)
    decreases |s|
  {
    if |s| < |sep| {
    } else if s[..|sep|] == sep {
      LastPieceExcludesSeparator(s[|sep|..], sep);
      assert LastPiece(s, sep) == LastPiece(s[|sep|..], sep);
    } else {
      var rest := Split(s[1..], sep);
      SplitSingleIffAbsent(s[1..], sep);
      SplitSingleIffAbsent(s, sep);
      if |rest| > 1 {
        LastPieceExcludesSeparator(s[1..], sep);
        assert LastPiece(s, sep) == LastPiece(s[1..], sep);
      }
    }
  }

  /** Without any match, `pop()` returns the whole string. */
  lemma LastPieceWithoutSeparator(s: string, sep: string)
    requires sep != "" && !Contains(s, sep)
    ensures LastPiece(s, sep) == s
  {
    SplitSingleIffAbsent(s, sep);
  }

  /** A separator whose first character appears nowhere else in it cannot overlap itself. */
  lemma NoEarlyMatch(a: string, sep: string, b: string)
    requires 0 < |a| < |sep| && sep[0] !in sep[1..]
    ensures (a + sep + b)[..|sep|] != sep
  {
    var s := a + sep + b;
    assert sep[1..][|a| - 1] == sep[|a|];
    assert s[..|sep|][|a|] == sep[0];
  }

  /**
   * For a separator that cannot overlap itself, the text after its final
   * occurrence is what `pop()` returns.
   */
  lemma {:induction false} LastPieceAfterFinalSeparator(a: string, sep: string, b: string)
    requires sep != "" && sep[0] !in sep[1..]
    requires !Contains(b, sep)
    ensures LastPiece(a + sep + b, sep) == b
    decreases |a|
  {
    var s := a + sep + b;
    if a == "" {
      assert s == sep + b;
      assert s[..|sep|] == sep;
      assert s[|sep|..] == b;
      SplitSingleIffAbsent(b, sep);
      assert Split(s, sep) == [""] + [b];
    } else {
      if |a| < |sep| {
        NoEarlyMatch(a, sep, b);
      }
      if s[..|sep|] == sep {
        assert s[|sep|..] == a[|sep|..] + sep + b;
        LastPieceAfterFinalSeparator(a[|sep|..], sep, b);
        assert LastPiece(s, sep) == LastPiece(s[|sep|..], sep);
      } else {
        assert s[1..] == a[1..] + sep + b;
        LastPieceAfterFinalSeparator(a[1..], sep, b);
        assert s[1..][|a| - 1..|a| - 1 + |sep|] == sep;
        assert ContainsAt(s[1..], sep, |a| - 1);
        SplitSingleIffAbsent(s[1..], sep);
        assert LastPiece(s, sep) == LastPiece(s[1..], sep);
      }
    }
  }

  // ---------------------------------------------------------------------------
  // trim
  // ---------------------------------------------------------------------------

  /** The characters `String.prototype.trim` removes: white space and line terminators. */
  predicate IsSpace(c: char) {
    || c == '\t' || c == '\n' || c == '\U{000B}' || c == '\U{000C}' || c == '\r'
    || c == ' ' || c == '\U{00A0}' || c == '\U{1680}'
    || ('\U{2000}' <= c <= '\U{200A}')
    || c == '\U{2028}' || c == '\U{2029}' || c == '\U{202F}' || c == '\U{205F}'
    || c == '\U{3000}' || c == '\U{FEFF}'
  }

  predicate AllSpace(s: string) {
    forall i | 0 <= i < |s| :: IsSpace(s[i])
  }

  /** The number of white-space characters `s` starts with. */
  function LeadingSpace(s: string): (n: nat)
    ensures n <= |s|
    decreases |s|
  {
    if s != "" && IsSpace(s[0]) then 1 + LeadingSpace(s[1..]) else 0
  }

  /** The number of white-space characters `s` ends with. */
  function TrailingSpace(s: string): (n: nat)
    ensures n <= |s|
    decreases |s|
  {
    if s != "" && IsSpace(s[|s| - 1]) then 1 + TrailingSpace(s[..|s| - 1]) else 0
  }

  /** The leading run is all white space, and the character after it is not. */
  lemma {:induction false} LeadingSpaceShape(s: string)
    ensures AllSpace(s[..LeadingSpace(s)])
    ensures LeadingSpace(s) < |s| ==> !IsSpace(s[LeadingSpace(s)])
    decreases |s|
  {
    if s != "" && IsSpace(s[0]) {
      var q := s[1..];
      LeadingSpaceShape(q);
      var n, m := LeadingSpace(s), LeadingSpace(q);
      var head := s[..n];
      forall k | 0 <= k < |head| ensures IsSpace(head[k]) {
        if k > 0 {
          assert head[k] == q[..m][k - 1];
        }
      }
      if n < |s| {
        assert s[n] == q[m];
      }
    }
  }

  /** The trailing run is all white space, and the character before it is not. */
  lemma {:induction false} TrailingSpaceShape(s: string)
    ensures AllSpace(s[|s| - TrailingSpace(s)..])
    ensures TrailingSpace(s) < |s| ==> !IsSpace(s[|s| - TrailingSpace(s) - 1])
    decreases |s|
  {
    if s != "" && IsSpace(s[|s| - 1]) {
      var p := s[..|s| - 1];
      TrailingSpaceShape(p);
      var n, m := TrailingSpace(s), TrailingSpace(p);
      assert |p| - m == |s| - n;
      var tail := s[|s| - n..];
      forall k | 0 <= k < |tail| ensures IsSpace(tail[k]) {
        if k < m {
          assert tail[k] == p[|p| - m..][k];
        }
      }
      if n < |s| {
        assert s[|s| - n - 1] == p[|p| - m - 1];
      }
    }
  }

  /** Drops the leading white space. */
  function TrimStart(s: string): string {
    s[LeadingSpace(s)..]
  }

  /** Drops the trailing white space. */
  function TrimEnd(s: string): string {
    s[..|s| - TrailingSpace(s)]
  }

  /** `s.trim()`. */
  function Trim(s: string): (r: string)
    ensures |r| <= |s|
  {
    TrimEnd(TrimStart(s))
  }

  /** The trailing run of a string that starts with a non-space stops before its first character. */
  lemma {:induction false} TrailingSpaceStops(s: string)
    requires s != "" && !IsSpace(s[0])
    ensures TrailingSpace(s) < |s|
    decreases |s|
  {
    if IsSpace(s[|s| - 1]) {
      TrailingSpaceStops(s[..|s| - 1]);
    }
  }

  /** Trimming the end of a string that starts with a non-space keeps that first character. */
  lemma TrimEndOfNonSpaceStart(t: string)
    requires t != "" && !IsSpace(t[0])
    ensures TrimEnd(t) != "" && TrimEnd(t)[0] == t[0]
  {
    TrailingSpaceStops(t);
  }

  /** A string trims to nothing exactly when it is all white space. */
  lemma TrimBlank(s: string)
    ensures Trim(s) == "" <==> AllSpace(s)
  {
    LeadingSpaceShape(s);
    var t := TrimStart(s);
    if t != "" {
      assert t[0] == s[LeadingSpace(s)];
      TrimEndOfNonSpaceStart(t);
    } else {
      assert s[..LeadingSpace(s)] == s;
    }
  }

  /** The trimmed text neither starts nor ends with white space and is a slice of the input. */
  lemma TrimShape(s: string)
    ensures |Trim(s)| <= |s|
    ensures Trim(s) != "" ==> !IsSpace(Trim(s)[0]) && !IsSpace(Trim(s)[|Trim(s)| - 1])
    ensures Contains(s, Trim(s))
  {
    LeadingSpaceShape(s);
    var t := TrimStart(s);
    TrailingSpaceShape(t);
    var r := TrimEnd(t);
    if r != "" {
      assert r[0] == t[0];
      assert r[|r| - 1] == t[|t| - TrailingSpace(t) - 1];
    }
    var i := |s| - |t|;
    assert s[i..i + |r|] == t[..|r|];
    assert ContainsAt(s, r, i);
  }

  /** Trimming twice is trimming once. */
  lemma TrimIdempotent(s: string)
    ensures Trim(Trim(s)) == Trim(s)
  {
    TrimShape(s);
  }

  // ---------------------------------------------------------------------------
  // toLowerCase (ASCII)
  // ---------------------------------------------------------------------------

  function LowerChar(c: char): char {
    if 'A' <= c <= 'Z' then (c as int + 32) as char else c
  }

  /** `s.toLowerCase()` restricted to the ASCII letters. */
  function ToLower(s: string): (r: string)
    ensures |r| == |s|
    ensures forall i | 0 <= i < |s| :: r[i] == LowerChar(s[i])
    decreases |s|
  {
    if s == "" then "" else [LowerChar(s[0])] + ToLower(s[1..])
  }

  /** ASCII case-insensitive equality. */
  predicate EqualsIgnoreCase(a: string, b: string) {
    ToLower(a) == ToLower(b)
  }

  /** Lowering is idempotent: an already-lowered string is left alone. */
  lemma ToLowerIdempotent(s: string)
    ensures ToLower(ToLower(s)) == ToLower(s)
  {
    assert forall i | 0 <= i < |s| :: LowerChar(LowerChar(s[i])) == LowerChar(s[i]);
  }

  // ---------------------------------------------------------------------------
  // Decimal numbers
  // ---------------------------------------------------------------------------

  predicate IsDigit(c: char) {
    '0' <= c <= '9'
  }

  predicate AllDigits(s: string) {
    forall i | 0 <= i < |s| :: IsDigit(s[i])
  }

  function DigitChar(d: nat): (c: char)
    requires d < 10
    ensures IsDigit(c) && c as int - '0' as int == d
  {
    (d + '0' as int) as char
  }

  /** The template-literal rendering `${n}` of a non-negative integer. */
  function NatToDecimal(n: nat): (r: string)
    ensures r != "" && AllDigits(r)
    ensures r[0] == '0' ==> n == 0
    decreases n
  {
    if n < 10 then [DigitChar(n)] else NatToDecimal(n / 10) + [DigitChar(n % 10)]
  }

  /** The value of a string of decimal digits. */
  function DecimalValue(s: string): nat
    requires AllDigits(s)
    decreases |s|
  {
    if s == "" then 0
    else DecimalValue(s[..|s| - 1]) * 10 + (s[|s| - 1] as int - '0' as int)
  }

  /** Reading back the rendered digits gives the number. */
  lemma {:induction false} DecimalRoundTrip(n: nat)
    ensures DecimalValue(NatToDecimal(n)) == n
    decreases n
  {
    if n >= 10 {
      DecimalRoundTrip(n / 10);
      var r := NatToDecimal(n);
      assert r[..|r| - 1] == NatToDecimal(n / 10);
    }
  }
}
