module Text {

  // ---------------------------------------------------------------------
  // White space and field splitting (strings.Fields, strings.Join)
  // ---------------------------------------------------------------------

  /** Go's unicode.IsSpace: the Latin-1 spaces plus the Unicode White_Space code points. */
  predicate IsSpace(c: char)
  {
    || c == ' ' || c == '\t' || c == '\n' || c == '\U{000B}' || c == '\U{000C}' || c == '\r'
    || c == '\U{0085}' || c == '\U{00A0}' || c == '\U{1680}'
    || ('\U{2000}' <= c <= '\U{200A}')
    || c == '\U{2028}' || c == '\U{2029}' || c == '\U{202F}' || c == '\U{205F}' || c == '\U{3000}'
  }

  predicate NoSpace(s: string)
  {
    forall i :: 0 <= i < |s| ==> !IsSpace(s[i])
  }

  /** The longest prefix of `s` that holds no white space. */
  function Word(s: string): (w: string)
    ensures |w| <= |s| && w == s[..|w|] && NoSpace(w)
    ensures |w| < |s| ==> IsSpace(s[|w|])
  {
    if s == [] || IsSpace(s[0]) then [] else [s[0]] + Word(s[1..])
  }

  /** strings.Fields: the maximal runs of non-space characters, in order. */
  function Fields(s: string): (fs: seq<string>)
    ensures forall i :: 0 <= i < |fs| ==> fs[i] != [] && NoSpace(fs[i])
    decreases |s|
  {
    if s == [] then []
    else if IsSpace(s[0]) then Fields(s[1..])
    else
      var w := Word(s);
      [w] + Fields(s[|w|..])
  }

  /** strings.Join. */
  function Join(parts: seq<string>, sep: string): (s: string)
    ensures parts != [] ==> |parts[0]| <= |s| && s[..|parts[0]|] == parts[0]
  {
    if parts == [] then ""
    else if |parts| == 1 then parts[0]
    else parts[0] + sep + Join(parts[1..], sep)
  }

  /** A join ends with its last part. */
  lemma {:induction false} JoinEndsWithLast(parts: seq<string>, sep: string)
    requires parts != []
    ensures var s, last := Join(parts, sep), parts[|parts| - 1];
      |last| <= |s| && s[|s| - |last|..] == last
    decreases |parts|
  {
    if |parts| > 1 {
      JoinEndsWithLast(parts[1..], sep);
    }
  }

  /** A character found in neither the parts nor the separator is not in their join. */
  lemma {:induction false} JoinAvoids(parts: seq<string>, sep: string, c: char)
    requires c !in sep
    requires forall i :: 0 <= i < |parts| ==> c !in parts[i]
    ensures c !in Join(parts, sep)
    decreases |parts|
  {
    if |parts| > 1 {
      JoinAvoids(parts[1..], sep, c);
    }
  }

  lemma {:induction false} WordOfSpaceFree(p: string, t: string)
    requires NoSpace(p)
    requires t == [] || IsSpace(t[0])
    ensures Word(p + t) == p
    decreases |p|
  {
    if p != [] {
      assert (p + t)[1..] == p[1..] + t;
      WordOfSpaceFree(p[1..], t);
    } else {
      assert p + t == t;
    }
  }

  /** Splitting on white space undoes joining space-free words with one white-space character. */
  lemma {:induction false} FieldsOfJoin(parts: seq<string>, sep: char)
    requires IsSpace(sep)
    requires forall i :: 0 <= i < |parts| ==> parts[i] != [] && NoSpace(parts[i])
    ensures Fields(Join(parts, [sep])) == parts
    decreases |parts|
  {
    if |parts| == 1 {
      var p := parts[0];
      WordOfSpaceFree(p, []);
      assert p + [] == p;
      assert p[|p|..] == [];
    } else if |parts| > 1 {
      var p, rest := parts[0], Join(parts[1..], [sep]);
      var s := p + [sep] + rest;
      WordOfSpaceFree(p, [sep] + rest);
      assert s == p + ([sep] + rest);
      assert s[|p|..] == [sep] + rest;
      assert ([sep] + rest)[1..] == rest;
      FieldsOfJoin(parts[1..], sep);
    }
  }

  /** A leading white-space character is skipped by the split. */
  lemma FieldsAfterSpace(c: char, rest: string)
    requires IsSpace(c)
    ensures Fields([c] + rest) == Fields(rest)
  {
    assert ([c] + rest)[1..] == rest;
  }

  /** A space-free word followed by white space (or nothing) is the first field. */
  lemma FieldsCons(w: string, t: string)
    requires w != [] && NoSpace(w)
    requires t == [] || IsSpace(t[0])
    ensures Fields(w + t) == [w] + Fields(t)
  {
    WordOfSpaceFree(w, t);
    assert (w + t)[|w|..] == t;
  }

  /** A string holding a character that is not white space has at least one field. */
  lemma {:induction false} FieldsOfNonBlank(s: string, i: nat)
    requires i < |s| && !IsSpace(s[i])
    ensures Fields(s) != []
    decreases |s|
  {
    if IsSpace(s[0]) {
      FieldsOfNonBlank(s[1..], i - 1);
    }
  }

  // ---------------------------------------------------------------------
  // Splitting on one separator (strings.SplitN)
  // ---------------------------------------------------------------------

  /** The position of the first `c` in `s`. */
  function IndexOf(s: string, c: char): (i: nat)
    requires c in s
    ensures i < |s| && s[i] == c && c !in s[..i]
  {
    if s[0] == c then 0 else 1 + IndexOf(s[1..], c)
  }

  /** strings.SplitN(s, sep, n) for n > 0: at most n parts, the last one keeping the rest of `s`. */
  function SplitN(s: string, sep: char, n: nat): (parts: seq<string>)
    requires n > 0
    ensures 1 <= |parts| <= n
    ensures forall i :: 0 <= i < |parts| - 1 ==> sep !in parts[i]
    ensures |parts| < n ==> sep !in parts[|parts| - 1]
    decreases n
  {
    if n == 1 || sep !in s then [s]
    else
      var i := IndexOf(s, sep);
      [s[..i]] + SplitN(s[i + 1..], sep, n - 1)
  }

  /** Joining the parts of a split with the separator gives back the input. */
  lemma {:induction false} JoinSplitN(s: string, sep: char, n: nat)
    requires n > 0
    ensures Join(SplitN(s, sep, n), [sep]) == s
    decreases n
  {
    if n > 1 && sep in s {
      var i := IndexOf(s, sep);
      var head, tail := s[..i], s[i + 1..];
      var rest := SplitN(tail, sep, n - 1);
      SplitNStep(s, sep, n);
      JoinSplitN(tail, sep, n - 1);
      JoinStep(head, rest, tail, [sep]);
      SplitAt(s, i);
    } else {
      SplitNWhole(s, sep, n);
    }
  }

  lemma JoinStep(head: string, rest: seq<string>, tail: string, sep: string)
    requires rest != [] && Join(rest, sep) == tail
    ensures Join([head] + rest, sep) == head + sep + tail
  {
    JoinCons(head, rest, sep);
  }

  lemma SplitAt(s: string, i: nat)
    requires i < |s|
    ensures s[..i] + [s[i]] + s[i + 1..] == s
  {
  }

  lemma SplitNWhole(s: string, sep: char, n: nat)
    requires n > 0
    requires n == 1 || sep !in s
    ensures Join(SplitN(s, sep, n), [sep]) == s
  {
  }

  lemma JoinCons(p: string, rest: seq<string>, sep: string)
    requires rest != []
    ensures Join([p] + rest, sep) == p + sep + Join(rest, sep)
  {
    assert ([p] + rest)[1..] == rest;
  }

  /** Splitting a join of separator-free parts recovers exactly those parts (the last one may hold `sep`). */
  lemma {:induction false} SplitNOfJoin(parts: seq<string>, sep: char)
    requires |parts| > 0
    requires forall i :: 0 <= i < |parts| - 1 ==> sep !in parts[i]
    ensures SplitN(Join(parts, [sep]), sep, |parts|) == parts
    decreases |parts|
  {
    if |parts| == 1 {
      SplitNOne(parts[0], sep);
      assert [parts[0]] == parts;
    } else {
      var p, tail := parts[0], parts[1..];
      assert [p] + tail == parts;
      JoinCons(p, tail, [sep]);
      SplitNOfJoin(tail, sep);
      SplitNOfJoinStep(parts, tail, Join(parts, [sep]), Join(tail, [sep]), sep);
    }
  }

  lemma SplitNOfJoinStep(parts: seq<string>, tail: seq<string>, joined: string, rest: string, sep: char)
    requires |parts| > 1 && tail == parts[1..] && sep !in parts[0]
    requires joined == parts[0] + [sep] + rest && SplitN(rest, sep, |tail|) == tail
    ensures SplitN(joined, sep, |parts|) == parts
  {
    SplitNCons(parts[0], rest, sep, |parts|);
    assert [parts[0]] + tail == parts;
  }

  lemma SplitNCons(p: string, rest: string, sep: char, n: nat)
    requires sep !in p && n > 1
    ensures SplitN(p + [sep] + rest, sep, n) == [p] + SplitN(rest, sep, n - 1)
  {
    var s := p + [sep] + rest;
    assert s == p + ([sep] + rest);
    IndexOfAfterFree(p, [sep] + rest, sep);
    var i := IndexOf(s, sep);
    SplitNStep(s, sep, n);
    assert s[..i] == p;
    assert s[i + 1..] == rest;
  }

  lemma SplitNOne(s: string, sep: char)
    ensures SplitN(Join([s], [sep]), sep, 1) == [s]
  {
  }

  lemma SplitNStep(s: string, sep: char, n: nat)
    requires n > 1 && sep in s
    ensures SplitN(s, sep, n) == [s[..IndexOf(s, sep)]] + SplitN(s[IndexOf(s, sep) + 1..], sep, n - 1)
  {
  }

  lemma IndexOfAfterFree(p: string, t: string, c: char)
    requires c !in p && t != [] && t[0] == c
    ensures c in p + t && IndexOf(p + t, c) == |p|
  {
    assert (p + t)[|p|] == c;
    var i := IndexOf(p + t, c);
  }

  // ---------------------------------------------------------------------
  // Line scanning (bufio.Scanner with bufio.ScanLines)
  // ---------------------------------------------------------------------

  /** ScanLines drops one carriage return at the end of a line. */
  function DropCR(t: string): string
  {
    if |t| > 0 && t[|t| - 1] == '\r' then t[..|t| - 1] else t
  }

  /**
   * The tokens a bufio.Scanner yields with ScanLines: the text between newlines,
   * each without a trailing carriage return; a last line without a newline is
   * still a token, and no token follows a final newline.
   */
  function ScanLines(s: string): (lines: seq<string>)
    ensures forall i :: 0 <= i < |lines| ==> '\n' !in lines[i]
    ensures |lines| <= |s|
    decreases |s|
  {
    if s == [] then []
    else if '\n' in s then
      var i := IndexOf(s, '\n');
      [DropCR(s[..i])] + ScanLines(s[i + 1..])
    else [DropCR(s)]
  }

  /** The text a program prints when it writes each line followed by a newline. */
  function JoinLines(lines: seq<string>): string
  {
    if lines == [] then "" else lines[0] + "\n" + JoinLines(lines[1..])
  }

  predicate IsLine(l: string)
  {
    '\n' !in l && (|l| > 0 ==> l[|l| - 1] != '\r')
  }

  /** Scanning newline-terminated output gives back the lines that were written. */
  lemma {:induction false} ScanLinesOfJoinLines(lines: seq<string>)
    requires forall i :: 0 <= i < |lines| ==> IsLine(lines[i])
    ensures ScanLines(JoinLines(lines)) == lines
    decreases |lines|
  {
    if lines != [] {
      var l, tail := lines[0], lines[1..];
      var rest := JoinLines(tail);
      calc {
        ScanLines(JoinLines(lines));
        { assert JoinLines(lines) == l + ("\n" + rest); }
        ScanLines(l + ("\n" + rest));
        { ScanLinesStep(l, rest); }
        [DropCR(l)] + ScanLines(rest);
        { assert IsLine(lines[0]); ScanLinesOfJoinLines(tail); }
        [l] + tail;
        lines;
      }
    }
  }

  /** A line without newlines, a newline, then the rest: the line is the first token. */
  lemma ScanLinesStep(l: string, rest: string)
    requires '\n' !in l
    ensures ScanLines(l + ("\n" + rest)) == [DropCR(l)] + ScanLines(rest)
  {
    var s := l + ("\n" + rest);
    IndexOfAfterFree(l, "\n" + rest, '\n');
    assert s[..|l|] == l;
    assert s[|l| + 1..] == rest;
  }

  // ---------------------------------------------------------------------
  // strings.TrimSpace, strings.HasPrefix, strings.ToLower
  // ---------------------------------------------------------------------

  function TrimLeftSpace(s: string): (r: string)
    ensures |r| <= |s| && r == s[|s| - |r|..]
    ensures r != [] ==> !IsSpace(r[0])
    ensures forall i :: 0 <= i < |s| - |r| ==> IsSpace(s[i])
  {
    if s != [] && IsSpace(s[0]) then TrimLeftSpace(s[1..]) else s
  }

  function TrimRightSpace(s: string): (r: string)
    ensures |r| <= |s| && r == s[..|r|]
    ensures r != [] ==> !IsSpace(r[|r| - 1])
    ensures forall i :: |r| <= i < |s| ==> IsSpace(s[i])
  {
    if s != [] && IsSpace(s[|s| - 1]) then TrimRightSpace(s[..|s| - 1]) else s
  }

  /** strings.TrimSpace: `s` without its leading and trailing white space. */
  function TrimSpace(s: string): (r: string)
    ensures r == [] || (!IsSpace(r[0]) && !IsSpace(r[|r| - 1]))
  {
    TrimRightSpace(TrimLeftSpace(s))
  }

  /** Trimming removes exactly the surrounding white space: a word that ends in non-space survives intact. */
  lemma TrimSpaceAround(pre: string, w: string, post: string)
    requires forall i :: 0 <= i < |pre| ==> IsSpace(pre[i])
    requires forall i :: 0 <= i < |post| ==> IsSpace(post[i])
    requires w != [] && !IsSpace(w[0]) && !IsSpace(w[|w| - 1])
    ensures TrimSpace(pre + w + post) == w
  {
    assert pre + w + post == pre + (w + post);
    TrimLeftOf(pre, w + post);
    TrimRightOf(w, post);
  }

  /** A word with non-space ends printed on its own line trims back to itself. */
  lemma TrimSpaceOfLine(w: string)
    requires w != [] && !IsSpace(w[0]) && !IsSpace(w[|w| - 1])
    ensures TrimSpace(w + "\n") == w
  {
    assert "" + w + "\n" == w + "\n";
    TrimSpaceAround("", w, "\n");
  }

  lemma {:induction false} TrimLeftOf(pre: string, x: string)
    requires forall i :: 0 <= i < |pre| ==> IsSpace(pre[i])
    requires x != [] && !IsSpace(x[0])
    ensures TrimLeftSpace(pre + x) == x
    decreases |pre|
  {
    if pre == [] {
      assert pre + x == x;
    } else {
      assert (pre + x)[0] == pre[0];
      assert (pre + x)[1..] == pre[1..] + x;
      TrimLeftOf(pre[1..], x);
    }
  }

  lemma {:induction false} TrimRightOf(x: string, post: string)
    requires forall i :: 0 <= i < |post| ==> IsSpace(post[i])
    requires x != [] && !IsSpace(x[|x| - 1])
    ensures TrimRightSpace(x + post) == x
    decreases |post|
  {
    if post == [] {
      assert x + post == x;
    } else {
      var s := x + post;
      assert s[|s| - 1] == post[|post| - 1];
      assert s[..|s| - 1] == x + post[..|post| - 1];
      TrimRightOf(x, post[..|post| - 1]);
    }
  }

  predicate HasPrefix(s: string, prefix: string)
  {
    |prefix| <= |s| && s[..|prefix|] == prefix
  }

  function LowerChar(c: char): char
  {
    if 'A' <= c <= 'Z' then (c as int + 32) as char else c
  }

  function UpperChar(c: char): char
  {
    if 'a' <= c <= 'z' then (c as int - 32) as char else c
  }

  /** strings.ToLower on the ASCII letters. */
  function ToLower(s: string): (r: string)
    ensures |r| == |s|
    ensures forall i :: 0 <= i < |s| ==> r[i] == LowerChar(s[i])
  {
    if s == [] then [] else [LowerChar(s[0])] + ToLower(s[1..])
  }

  function ToUpper(s: string): (r: string)
    ensures |r| == |s|
    ensures forall i :: 0 <= i < |s| ==> r[i] == UpperChar(s[i])
  {
    if s == [] then [] else [UpperChar(s[0])] + ToUpper(s[1..])
  }

  // ---------------------------------------------------------------------
  // Decimal integers (fmt's %d, strconv.ParseInt(s, 10, 64), strconv.Atoi)
  // ---------------------------------------------------------------------

  const MinInt64: int := -0x8000_0000_0000_0000
  const MaxInt64: int := 0x7FFF_FFFF_FFFF_FFFF
  const MaxUint64: int := 0xFFFF_FFFF_FFFF_FFFF

  predicate IsDigit(c: char)
  {
    '0' <= c <= '9'
  }

  function DigitChar(d: nat): (c: char)
    requires d < 10
    ensures IsDigit(c) && c as int - '0' as int == d
  {
    ('0' as int + d) as char
  }

  /** The decimal digits of `n`, most significant first, without leading zeros. */
  function NatToString(n: nat): (s: string)
    ensures s != [] && forall i :: 0 <= i < |s| ==> IsDigit(s[i])
    decreases n
  {
    if n < 10 then [DigitChar(n)] else NatToString(n / 10) + [DigitChar(n % 10)]
  }

  /** fmt's %d: an optional minus sign followed by the digits. */
  function IntToString(x: int): (s: string)
    ensures s != [] && NoSpace(s)
    ensures forall i :: 0 <= i < |s| ==> IsDigit(s[i]) || s[i] == '-'
  {
    if x < 0 then "-" + NatToString(-x) else NatToString(x)
  }

  /** What strconv.ParseUint(s, 10, 64) reports. */
  datatype UintScan = UintOk(n: nat) | UintSyntax | UintRange

  /**
   * ParseUint's left-to-right scan with the value read so far: a non-digit is a
   * syntax error, and a value past 2^64-1 stops the scan with a range error at once.
   */
  function ScanUint(s: string, acc: nat): UintScan
  {
    if s == [] then UintOk(acc)
    else if !IsDigit(s[0]) then UintSyntax
    else
      var n := acc * 10 + (s[0] as int - '0' as int);
      if n > MaxUint64 then UintRange else ScanUint(s[1..], n)
  }

  /** What strconv.ParseInt(s, 10, 64) reports; a range error carries the clamped value Go returns. */
  datatype ParsedInt = Parsed(value: int) | SyntaxError | RangeError(clamped: int)

  /** strconv.ParseInt(s, 10, 64): an optional sign, then at least one decimal digit, within int64. */
  function ParseInt(s: string): (r: ParsedInt)
    ensures r.Parsed? ==> MinInt64 <= r.value <= MaxInt64
    ensures r.Parsed? ==> s != [] && (IsDigit(s[0]) || s[0] == '-' || s[0] == '+')
  {
    if s == [] then SyntaxError
    else
      var neg := s[0] == '-';
      var digits := if s[0] == '-' || s[0] == '+' then s[1..] else s;
      if digits == [] then SyntaxError
      else
        match ScanUint(digits, 0)
        case UintSyntax => SyntaxError
        case UintRange => RangeError(if neg then MinInt64 else MaxInt64)
        case UintOk(n) =>
          if !neg && n > MaxInt64 then RangeError(MaxInt64)
          else if neg && n > -MinInt64 then RangeError(MinInt64)
          else
            var v: int := if neg then -(n as int) else n;
            Parsed(v)
  }

  /** The value of `n, _ := strconv.Atoi(s)`: 0 on a syntax error, the clamped bound on a range error. */
  function AtoiValue(s: string): (n: int)
    ensures MinInt64 <= n <= MaxInt64
  {
    match ParseInt(s)
    case Parsed(v) => v
    case SyntaxError => 0
    case RangeError(c) => c
  }

  // ---------------------------------------------------------------------
  // Go's int on a 64-bit platform: sums wrap around in two's complement
  // ---------------------------------------------------------------------

  const TwoTo64: int := 0x1_0000_0000_0000_0000

  /** The int64 that `x` wraps to: the one value in int64's range congruent to `x` modulo 2^64. */
  function WrapInt64(x: int): (r: int)
    ensures MinInt64 <= r <= MaxInt64
  {
    (x - MinInt64) % TwoTo64 + MinInt64
  }

  /** The wrapped value differs from `x` by a multiple of 2^64. */
  lemma WrapInt64Congruent(x: int)
    ensures (WrapInt64(x) - x) % TwoTo64 == 0
  {
    var q := (x - MinInt64) / TwoTo64;
    assert WrapInt64(x) - x == -q * TwoTo64;
  }

  /** Two int64 values congruent modulo 2^64 are equal. */
  lemma CongruentInt64(r1: int, r2: int)
    requires MinInt64 <= r1 <= MaxInt64 && MinInt64 <= r2 <= MaxInt64
    requires (r1 - r2) % TwoTo64 == 0
    ensures r1 == r2
  {
    var k := (r1 - r2) / TwoTo64;
    assert r1 - r2 == k * TwoTo64;
  }

  /** Every value already in int64's range is left as it is. */
  lemma WrapInt64InRange(x: int)
    requires MinInt64 <= x <= MaxInt64
    ensures WrapInt64(x) == x
  {
    WrapInt64Congruent(x);
    CongruentInt64(WrapInt64(x), x);
  }

  /** A value past MaxInt64, by less than 2^64, wraps to itself less 2^64. */
  lemma WrapInt64Above(x: int)
    requires MaxInt64 < x <= MaxInt64 + TwoTo64
    ensures WrapInt64(x) == x - TwoTo64
  {
    WrapInt64Congruent(x);
    CongruentInt64(WrapInt64(x), x - TwoTo64);
  }

  /** Wrapping a running sum after every step is wrapping the whole sum once. */
  lemma WrapInt64Add(a: int, b: int)
    ensures WrapInt64(WrapInt64(a) + b) == WrapInt64(a + b)
  {
    WrapInt64Congruent(WrapInt64(a) + b);
    WrapInt64Congruent(a);
    WrapInt64Congruent(a + b);
    var r1, r2 := WrapInt64(WrapInt64(a) + b), WrapInt64(a + b);
    var k1, k2, k3 := (r1 - (WrapInt64(a) + b)) / TwoTo64, (WrapInt64(a) - a) / TwoTo64, (r2 - (a + b)) / TwoTo64;
    assert r1 - r2 == (k1 + k2 - k3) * TwoTo64;
    CongruentInt64(r1, r2);
  }

  lemma {:induction false} ScanUintAppend(s: string, t: string, acc: nat)
    ensures ScanUint(s + t, acc) ==
      match ScanUint(s, acc)
      case UintOk(v) => ScanUint(t, v)
      case other => other
    decreases |s|
  {
    if s != [] {
      assert (s + t)[0] == s[0];
      assert (s + t)[1..] == s[1..] + t;
      if IsDigit(s[0]) {
        var n := acc * 10 + (s[0] as int - '0' as int);
        if n <= MaxUint64 {
          ScanUintAppend(s[1..], t, n);
        }
      }
    } else {
      assert s + t == t;
    }
  }

  /** Reading back the digits of `n` gives `n`. */
  lemma {:induction false} ScanNatToString(n: nat)
    requires n <= MaxUint64
    ensures ScanUint(NatToString(n), 0) == UintOk(n)
    decreases n
  {
    if n >= 10 {
      ScanNatToString(n / 10);
      ScanUintAppend(NatToString(n / 10), [DigitChar(n % 10)], 0);
      assert [DigitChar(n % 10)][1..] == [];
    }
  }

  /** ParseInt is the inverse of %d on every int64. */
  lemma ParseIntToString(x: int)
    requires MinInt64 <= x <= MaxInt64
    ensures ParseInt(IntToString(x)) == Parsed(x)
  {
    if x < 0 {
      ScanNatToString(-x);
      assert ("-" + NatToString(-x))[1..] == NatToString(-x);
    } else {
      ScanNatToString(x);
    }
  }
}
