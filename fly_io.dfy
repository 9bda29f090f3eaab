/** The parts of fly/fly_io.c that decide something: the newline trimmer,
    the reader of a line of parameter ranges, the Scatter Search set sizes
    derived from the number of parameters, the check of a time table, the
    check of the annealing distribution parameters and the slicing of a
    tweak mask into its per-parameter-kind blocks.

    Files are not read here: what `fscanf` would deliver is passed in as a
    value (a sequence of numbers, an already split section), and the text
    to number conversion of `sscanf("%lg")` is a function parameter. */
module FlyIO {
  import opened Util
  import CText

  /* ----------------------------------------------------------------------
     chomp (fly/fly_io.c:25-32)
     ---------------------------------------------------------------------- */

  /** The characters at which `chomp` cuts a line. */
  const LineEnds: set<char> := {'\n', '\r'}

  /** The characters at which the scan of `chomp` stops in a buffer. */
  const ChompStops: set<char> := {'\0', '\n', '\r'}

  /** The C string a buffer holds: everything before its first NUL. */
  function CStr(buf: seq<char>): (s: string)
    ensures |s| <= |buf| && s == buf[..|s|]
    ensures forall k :: 0 <= k < |s| ==> s[k] != '\0'
    ensures |s| < |buf| ==> buf[|s|] == '\0'
  {
    buf[..CText.TokLen(buf, {'\0'})]
  }

  /** A line with everything from its first `'\n'` or `'\r'` on removed. */
  function Chomped(s: string): (t: string)
    ensures |t| <= |s| && t == s[..|t|]
    ensures forall k :: 0 <= k < |t| ==> t[k] !in LineEnds
    ensures |t| < |s| ==> s[|t|] in LineEnds
  {
    s[..CText.TokLen(s, LineEnds)]
  }

  /** Cutting a line a second time changes nothing. */
  lemma ChompedIdempotent(s: string)
    ensures Chomped(Chomped(s)) == Chomped(s)
  {
  }

  /** The stop search ends at `n` when nothing before `n` stops it and
      `n` does. */
  lemma TokLenIs(s: string, delims: set<char>, n: nat)
    requires n <= |s| && (forall k :: 0 <= k < n ==> s[k] !in delims) && (n < |s| ==> s[n] in delims)
    ensures CText.TokLen(s, delims) == n
  {
  }

  /** More stop characters end the search no later. */
  lemma {:induction false} TokLenMore(s: string, fewer: set<char>, more: set<char>)
    requires fewer <= more
    ensures CText.TokLen(s, more) <= CText.TokLen(s, fewer)
  {
    if s != [] && s[0] !in more {
      TokLenMore(s[1..], fewer, more);
    }
  }

  /** Writing a NUL at the first NUL, `'\n'` or `'\r'` of a buffer leaves
      the buffer's string cut at its first line end. */
  lemma ChompWrite(b: seq<char>, i: nat)
    requires i < |b| && i == CText.TokLen(b, ChompStops)
    ensures CStr(b[i := '\0']) == Chomped(CStr(b))
  {
    var c := CStr(b);
    TokLenMore(b, {'\0'}, ChompStops);
    assert i <= |c|;
    TokLenIs(c, LineEnds, i);
    TokLenIs(b[i := '\0'], {'\0'}, i);
    assert CStr(b[i := '\0']) == b[..i];
  }

  /** chomp: the buffer's string is cut at its first line end by writing a
      NUL there; no other cell changes. The buffer must hold a NUL, as every
      C string does. */
  method Chomp(buf: array<char>)
    requires '\0' in buf[..]
    modifies buf
    ensures CStr(buf[..]) == Chomped(CStr(old(buf[..])))
    ensures buf[..] == old(buf[..])[CText.TokLen(old(buf[..]), ChompStops) := '\0']
  {
    var i := 0;
    while buf[i] != '\0' && buf[i] != '\n' && buf[i] != '\r'
      invariant 0 <= i < buf.Length
      invariant '\0' in buf[i..]
      invariant forall k :: 0 <= k < i ==> buf[k] !in ChompStops
      decreases buf.Length - i
    {
      assert buf[i..] == [buf[i]] + buf[i + 1..];
      i := i + 1;
    }
    ghost var before := buf[..];
    TokLenIs(before, ChompStops, i);
    buf[i] := '\0';
    ChompWrite(before, i);
  }

  /* ----------------------------------------------------------------------
     ReadRangeElement and ReadLineOfRanges (fly/fly_io.c:2436-2509)
     ---------------------------------------------------------------------- */

  /** The largest magnitude of a C `double`, written for a missing bound. */
  const DblMax: real := 1.7976931348623157e308

  /** The text that stands for a missing bound. */
  const NA: string := "N/A"

  /** The characters at which a bound's text ends. */
  const RangeStops: set<char> := {' ', '\t', '\n', ',', ')'}

  /** The characters the range scanner steps over. */
  const SkipChars: set<char> := {' ', '\t', '\n', ')', ',', '('}

  /** The characters at which the range scanner starts a bound. */
  const StartChars: set<char> := {'-', '.', '0', '1', '2', '3', '4', '5', '6', '7', '8', '9', 'N'}

  /** One lower or upper bound read from a range line, as the scanner
      returns it: what was read and how far the cursor moves. */
  datatype Element = Element(text: string, advance: nat)

  /** Where the run of non-stop characters from `line[i]` ends: the index
      that `strcspn` reaches. */
  function SpanEnd(line: string, i: nat): (j: nat)
    requires i <= |line|
    ensures i <= j <= |line|
    decreases |line| - i
  {
    if i == |line| || line[i] in RangeStops then i else SpanEnd(line, i + 1)
  }

  lemma {:induction false} SpanEndSpec(line: string, i: nat)
    requires i <= |line|
    ensures forall k :: i <= k < SpanEnd(line, i) ==> line[k] !in RangeStops
    ensures SpanEnd(line, i) < |line| ==> line[SpanEnd(line, i)] in RangeStops
    decreases |line| - i
  {
    if i < |line| && line[i] !in RangeStops {
      SpanEndSpec(line, i + 1);
    }
  }

  /** ReadRangeElement: the bound's text is the longest run from `line[i]`
      holding none of the stop characters, and the cursor moves past it and
      one more character. `line` is the text before the C string's NUL. */
  function ReadRangeElement(line: string, i: nat): (r: Element)
    requires i <= |line|
    ensures i + |r.text| <= |line| && r.text == line[i..i + |r.text|]
    ensures forall k :: 0 <= k < |r.text| ==> r.text[k] !in RangeStops
    ensures i + |r.text| < |line| ==> line[i + |r.text|] in RangeStops
    ensures r.advance == |r.text| + 1
  {
    SpanEndSpec(line, i);
    var j := SpanEnd(line, i);
    Element(line[i..j], j - i + 1)
  }

  /** Whether the scan of ReadLineOfRanges, from cursor `i`, reaches the end
      of the line. At a character that is neither skipped nor a bound's
      first character the C loop stops advancing and never ends. */
  predicate ScanEnds(line: string, i: nat)
    decreases |line| - i
  {
    || i >= |line|
    || (line[i] in SkipChars && ScanEnds(line, i + 1))
    || (line[i] in StartChars && ScanEnds(line, SpanEnd(line, i) + 1))
  }

  /** What a scanner token looks like: a start character followed by no
      stop character. */
  predicate Token(t: string)
  {
    t != [] && t[0] in StartChars && forall k :: 0 <= k < |t| ==> t[k] !in RangeStops
  }

  /** The bounds' texts the scan collects from cursor `i` on, in order. */
  function RangeTokens(line: string, i: nat): (toks: seq<string>)
    requires ScanEnds(line, i)
    ensures forall k :: 0 <= k < |toks| ==> Token(toks[k])
    decreases |line| - i
  {
    if i >= |line| then []
    else if line[i] in SkipChars then RangeTokens(line, i + 1)
    else
      var j := SpanEnd(line, i);
      SpanEndSpec(line, i);
      assert line[i..j] != [] && line[i..j][0] == line[i];
      [line[i..j]] + RangeTokens(line, j + 1)
  }

  /** The tokenising loop of ReadLineOfRanges: the texts land in the
      `2 * lenRanges` slots of the `tokens` table in the order the scan
      meets them. The table has no more slots than that. */
  method TokeniseRanges(line: string, lenRanges: nat) returns (tokens: seq<string>)
    requires ScanEnds(line, 0) && |RangeTokens(line, 0)| <= 2 * lenRanges
    ensures tokens == RangeTokens(line, 0)
  {
    var table := new string[2 * lenRanges];
    var i, j := 0, 0;
    while i < |line|
      invariant ScanEnds(line, i)
      invariant j <= table.Length
      invariant table[..j] + RangeTokens(line, i) == RangeTokens(line, 0)
      decreases |line| - i
    {
      if line[i] in SkipChars {
        i := i + 1;
      } else {
        var e := ReadRangeElement(line, i);
        assert i + |e.text| == SpanEnd(line, i) by {
          SpanEndSpec(line, i);
        }
        ghost var rest := RangeTokens(line, i + e.advance);
        assert RangeTokens(line, i) == [e.text] + rest;
        table[j] := e.text;
        assert table[..j + 1] == table[..j] + [e.text];
        ConcatAssoc(table[..j], [e.text], rest);
        i, j := i + e.advance, j + 1;
      }
    }
    tokens := table[..j];
  }

  /** A parameter's admissible interval. */
  datatype Range = Range(lower: real, upper: real)

  /** The value a bound's text sets: the sentinel `na` for "N/A", else what
      `sscanf` converts, and the old value when it converts nothing. */
  function BoundOf(tok: string, na: real, current: real, parse: string -> Option<real>): real
  {
    if tok == NA then na
    else match parse(tok)
      case Some(v) => v
      case None => current
  }

  /** The ranges after the first `n` took their lower bound from token `2i`
      and their upper bound from token `2i + 1`; the rest are as they were. */
  function Interpreted(rs: seq<Range>, toks: seq<string>, n: nat, parse: string -> Option<real>): (out: seq<Range>)
    requires n <= |rs| && 2 * n <= |toks|
    ensures |out| == |rs|
  {
    seq(|rs|, i requires 0 <= i < |rs| =>
      if i < n then Range(BoundOf(toks[2 * i], -DblMax, rs[i].lower, parse),
                          BoundOf(toks[2 * i + 1], DblMax, rs[i].upper, parse))
      else rs[i])
  }

  /** ReadLineOfRanges: a line holding exactly `2 * lenRanges` bounds sets
      the first `lenRanges` ranges. A line with more bounds would overrun
      the token table and one with fewer would hand a missing token to
      `strcmp`, so the count is the caller's obligation. */
  method ReadLineOfRanges(line: string, ranges: array<Range>, lenRanges: nat, parse: string -> Option<real>)
    requires ScanEnds(line, 0) && |RangeTokens(line, 0)| == 2 * lenRanges
    requires lenRanges <= ranges.Length
    modifies ranges
    ensures ranges[..] == Interpreted(old(ranges[..]), RangeTokens(line, 0), lenRanges, parse)
  {
    var tokens := TokeniseRanges(line, lenRanges);
    var i := 0;
    while i < lenRanges
      invariant i <= lenRanges
      invariant ranges[..] == Interpreted(old(ranges[..]), tokens, i, parse)
    {
      var lower := BoundOf(tokens[2 * i], -DblMax, ranges[i].lower, parse);
      var upper := BoundOf(tokens[2 * i + 1], DblMax, ranges[i].upper, parse);
      ranges[i] := Range(lower, upper);
      i := i + 1;
    }
  }

  /** The first `n` ranges unbounded on both sides, the rest unchanged. */
  function FreeRanges(rs: seq<Range>, n: int): (out: seq<Range>)
    ensures |out| == |rs|
  {
    seq(|rs|, i requires 0 <= i < |rs| => if i < n then Range(-DblMax, DblMax) else rs[i])
  }

  /** CreateLineOfRangesFromNA: every one of the first `ncols` ranges becomes
      (-DBL_MAX, DBL_MAX). */
  method CreateLineOfRangesFromNA(ranges: array<Range>, ncols: int)
    requires ncols <= ranges.Length
    modifies ranges
    ensures ranges[..] == FreeRanges(old(ranges[..]), ncols)
  {
    var i := 0;
    while i < ncols
      invariant 0 <= i && (ncols >= 0 ==> i <= ncols) && (ncols < 0 ==> i == 0)
      invariant ranges[..] == FreeRanges(old(ranges[..]), i)
    {
      ranges[i] := Range(-DblMax, DblMax);
      i := i + 1;
    }
    assert FreeRanges(old(ranges[..]), i) == FreeRanges(old(ranges[..]), ncols);
  }

  /** The text of a line of ranges as the parameter file writes it:
      `(lower,upper)` for each range. */
  function RangeLine(ps: seq<(string, string)>): string
  {
    if ps == [] then [] else ['('] + (ps[0].0 + [','] + (ps[0].1 + [')'] + RangeLine(ps[1..])))
  }

  /** The bounds of a list of ranges, lower before upper. */
  function Bounds(ps: seq<(string, string)>): (toks: seq<string>)
    ensures |toks| == 2 * |ps|
    ensures forall i :: 0 <= i < |ps| ==> toks[2 * i] == ps[i].0 && toks[2 * i + 1] == ps[i].1
  {
    if ps == [] then [] else [ps[0].0, ps[0].1] + Bounds(ps[1..])
  }

  /** The stop search does not look behind its start. */
  lemma {:induction false} SpanShift(a: string, b: string, k: nat)
    requires k <= |b|
    ensures SpanEnd(a + b, |a| + k) == |a| + SpanEnd(b, k)
    decreases |b| - k
  {
    if k < |b| {
      assert (a + b)[|a| + k] == b[k];
      SpanShift(a, b, k + 1);
    }
  }

  /** The scan does not look behind its cursor: after a prefix it ends
      exactly when it would on the rest alone... */
  lemma {:induction false} ScanEndsShift(a: string, b: string, k: nat)
    ensures ScanEnds(a + b, |a| + k) <==> ScanEnds(b, k)
    decreases |b| - k
  {
    if k < |b| {
      assert (a + b)[|a| + k] == b[k];
      SpanShift(a, b, k);
      ScanEndsShift(a, b, k + 1);
      ScanEndsShift(a, b, SpanEnd(b, k) + 1);
    }
  }

  /** ... and collects the same bounds' texts. */
  lemma {:induction false} TokensShift(a: string, b: string, k: nat)
    requires ScanEnds(b, k)
    ensures ScanEnds(a + b, |a| + k) && RangeTokens(a + b, |a| + k) == RangeTokens(b, k)
    decreases |b| - k
  {
    ScanEndsShift(a, b, k);
    if k < |b| {
      var line := a + b;
      assert line[|a| + k] == b[k];
      if b[k] in SkipChars {
        TokensShift(a, b, k + 1);
      } else {
        SpanShift(a, b, k);
        var j := SpanEnd(b, k);
        assert line[|a| + k..|a| + j] == b[k..j];
        TokensShift(a, b, j + 1);
      }
    }
  }

  /** A bound's text followed by a stop character is where the stop search
      from its first character ends. */
  lemma ElementAt(line: string, i: nat, tok: string)
    requires Token(tok) && i + |tok| < |line| && line[i..i + |tok|] == tok && line[i + |tok|] in RangeStops
    ensures SpanEnd(line, i) == i + |tok|
  {
    SpanEndSpec(line, i);
    assert forall k :: i <= k < i + |tok| ==> line[k] == tok[k - i];
  }

  /** A skipped character in front of the rest of a line changes nothing
      the scan reads. */
  lemma SkipScan(c: char, rest: string)
    requires c in SkipChars
    ensures ScanEnds([c] + rest, 0) <==> ScanEnds(rest, 0)
    ensures ScanEnds(rest, 0) ==> RangeTokens([c] + rest, 0) == RangeTokens(rest, 0)
  {
    assert ([c] + rest)[0] == c;
    ScanEndsShift([c], rest, 0);
    if ScanEnds(rest, 0) {
      TokensShift([c], rest, 0);
    }
  }

  /** A bound's text and the stop character after it read as that one
      text in front of what the rest of the line reads as. */
  lemma BoundScan(tok: string, c: char, rest: string)
    requires Token(tok) && c in RangeStops
    ensures ScanEnds(tok + [c] + rest, 0) <==> ScanEnds(rest, 0)
    ensures ScanEnds(rest, 0) ==> RangeTokens(tok + [c] + rest, 0) == [tok] + RangeTokens(rest, 0)
  {
    var line := tok + [c] + rest;
    assert line[0..|tok|] == tok && line[|tok|] == c && line[0] == tok[0];
    ElementAt(line, 0, tok);
    ScanEndsShift(tok + [c], rest, 0);
    if ScanEnds(rest, 0) {
      TokensShift(tok + [c], rest, 0);
    }
  }

  /** One written range `(lo,hi)` reads as its two bounds. */
  lemma PairScan(lo: string, hi: string, rest: string)
    requires Token(lo) && Token(hi)
    ensures ScanEnds(['('] + (lo + [','] + (hi + [')'] + rest)), 0) <==> ScanEnds(rest, 0)
    ensures ScanEnds(rest, 0) ==> RangeTokens(['('] + (lo + [','] + (hi + [')'] + rest)), 0) == [lo, hi] + RangeTokens(rest, 0)
  {
    BoundScan(hi, ')', rest);
    BoundScan(lo, ',', hi + [')'] + rest);
    SkipScan('(', lo + [','] + (hi + [')'] + rest));
  }

  /** Reading a written line of ranges gives back its bounds in order. */
  lemma {:induction false} RangeLineRoundTrip(ps: seq<(string, string)>)
    requires forall i :: 0 <= i < |ps| ==> Token(ps[i].0) && Token(ps[i].1)
    ensures ScanEnds(RangeLine(ps), 0)
    ensures RangeTokens(RangeLine(ps), 0) == Bounds(ps)
  {
    if ps != [] {
      RangeLineRoundTrip(ps[1..]);
      PairScan(ps[0].0, ps[0].1, RangeLine(ps[1..]));
    }
  }

  /** `n` ranges written as `(N/A,N/A)`. */
  function NALine(n: nat): (ps: seq<(string, string)>)
    ensures |ps| == n
  {
    seq(n, _ => (NA, NA))
  }

  /** A line of `n` ranges written all as "N/A" reads as `n` unbounded
      ranges: ReadLineOfRanges on it does what CreateLineOfRangesFromNA
      does, whatever the number conversion. */
  lemma NALineIsFree(rs: seq<Range>, n: nat, parse: string -> Option<real>)
    requires n <= |rs|
    ensures ScanEnds(RangeLine(NALine(n)), 0)
    ensures |RangeTokens(RangeLine(NALine(n)), 0)| == 2 * n
    ensures Interpreted(rs, RangeTokens(RangeLine(NALine(n)), 0), n, parse) == FreeRanges(rs, n)
  {
    var ps := NALine(n);
    assert Token(NA);
    RangeLineRoundTrip(ps);
    var toks := RangeTokens(RangeLine(ps), 0);
    forall i | 0 <= i < |rs|
      ensures Interpreted(rs, toks, n, parse)[i] == FreeRanges(rs, n)[i]
    {
      if i < n {
        assert toks[2 * i] == NA && toks[2 * i + 1] == NA;
      }
    }
  }

  /** Range `i` of a written line takes its lower bound from the `i`-th
      pair's first text and its upper bound from its second. */
  lemma RangeLineValues(rs: seq<Range>, ps: seq<(string, string)>, parse: string -> Option<real>, i: nat)
    requires forall k :: 0 <= k < |ps| ==> Token(ps[k].0) && Token(ps[k].1)
    requires |ps| <= |rs| && i < |ps|
    ensures ScanEnds(RangeLine(ps), 0) && |RangeTokens(RangeLine(ps), 0)| == 2 * |ps|
    ensures Interpreted(rs, RangeTokens(RangeLine(ps), 0), |ps|, parse)[i]
              == Range(BoundOf(ps[i].0, -DblMax, rs[i].lower, parse), BoundOf(ps[i].1, DblMax, rs[i].upper, parse))
  {
    RangeLineRoundTrip(ps);
    var toks := Bounds(ps);
    InterpretedAt(rs, toks, |ps|, parse, i);
  }

  lemma InterpretedAt(rs: seq<Range>, toks: seq<string>, n: nat, parse: string -> Option<real>, i: nat)
    requires n <= |rs| && 2 * n <= |toks| && i < n
    ensures Interpreted(rs, toks, n, parse)[i]
              == Range(BoundOf(toks[2 * i], -DblMax, rs[i].lower, parse), BoundOf(toks[2 * i + 1], DblMax, rs[i].upper, parse))
  {
  }

  /* ----------------------------------------------------------------------
     Scatter Search set sizes (fly/fly_io.c:1538-1545)
     ---------------------------------------------------------------------- */

  /** The sizes ReadSSParameters derives from the number of parameters. */
  datatype SSSizes = SSSizes(refSetSize: nat, maxElite: nat, scatterSetSize: nat)

  /** The least `r >= k` with `(2r)^2 >= m`, searched upward from `k`. */
  function HalfRootFrom(m: nat, k: nat): (r: nat)
    requires k == 0 || 4 * Sq(k - 1) < m
    ensures r >= k && 4 * Sq(r) >= m
    ensures r == 0 || 4 * Sq(r - 1) < m
    decreases m - 4 * Sq(k)
  {
    if 4 * Sq(k) >= m then k
    else HalfRootFrom(m, k + 1)
  }

  /** `ceil(sqrt(m) / 2)`: the least `k` with `2k >= sqrt(m)`. */
  function CeilHalfRoot(m: nat): nat
  {
    HalfRootFrom(m, 0)
  }

  /** The square of `x`, built up as the sum of the first `x` odd numbers. */
  function Sq(x: nat): nat
  {
    if x == 0 then 0 else Sq(x - 1) + 2 * x - 1
  }

  /** `Sq` is the square. */
  lemma {:induction false} SqIsSquare(x: nat)
    ensures Sq(x) == x * x
  {
    if x > 0 {
      SqIsSquare(x - 1);
    }
  }

  lemma {:induction false} SquareMono(a: nat, b: nat)
    requires a <= b
    ensures Sq(a) <= Sq(b)
    decreases b - a
  {
    if a < b {
      SquareMono(a, b - 1);
    }
  }

  lemma {:induction false} SquareAbove19(x: nat)
    requires x >= 19
    ensures Sq(x) >= 19 * x
  {
    if x > 19 {
      SquareAbove19(x - 1);
    } else {
      SqIsSquare(19);
    }
  }

  /** `ceil(1 + sqrt(1 + 40n) / 2)` bumped to even, then raised to 20 is
      the least even number that is at least 20 and at least
      `1 + sqrt(1 + 40n) / 2`. */
  lemma RefSetSizeLeast(m: nat, k: nat, r: nat)
    requires 4 * Sq(k) >= m && (k == 0 || 4 * Sq(k - 1) < m)
    requires r >= 20 && r >= k + 1 && (r > 20 ==> r <= k + 2)
    ensures 4 * Sq(r - 1) >= m
    ensures r > 20 ==> 4 * Sq(r - 3) < m
  {
    assert k <= r - 1;
    SquareMono(k, r - 1);
    if r != 20 {
      assert k > 0 && r - 3 <= k - 1;
      SquareMono(r - 3, k - 1);
    }
  }

  /** `b`, or `b + 1` when `b` is odd. */
  function RoundUpEven(b: nat): (e: nat)
    ensures e % 2 == 0 && b <= e <= b + 1
  {
    if b % 2 != 0 then b + 1 else b
  }

  /** The reference set size: the least even number that is at least 20
      and at least `1 + sqrt(1 + 40n) / 2`. */
  function RefSetSize(nreal: nat): (r: nat)
    ensures r % 2 == 0 && r >= 20
    ensures 4 * Sq(r - 1) >= 1 + 40 * nreal
    ensures r > 20 ==> 4 * Sq(r - 3) < 1 + 40 * nreal
  {
    var m := 1 + 40 * nreal;
    var k := CeilHalfRoot(m);
    var r := EvenFrom20(1 + k);
    assert 4 * Sq(r - 1) >= m && (r > 20 ==> 4 * Sq(r - 3) < m) by {
      RefSetSizeLeast(m, k, r);
    }
    r
  }

  /** `b` rounded up to even, and raised to 20 when below. */
  function EvenFrom20(b: nat): (r: nat)
    ensures r % 2 == 0 && r >= 20 && r >= b && (r > 20 ==> r <= b + 1)
  {
    var even := RoundUpEven(b);
    if even > 20 then even else 20
  }

  /** The sizing block: half of the reference set are elite, and the
      scatter set holds `max(10n, 40)`. */
  function SizesFor(nreal: nat): (z: SSSizes)
    ensures z.refSetSize == RefSetSize(nreal)
    ensures 2 * z.maxElite == z.refSetSize
    ensures z.scatterSetSize >= 40 && z.scatterSetSize >= 10 * nreal
    ensures z.scatterSetSize == 40 || z.scatterSetSize == 10 * nreal
  {
    var ref := RefSetSize(nreal);
    SSSizes(ref, ref / 2, if 10 * nreal > 40 then 10 * nreal else 40)
  }

  /** The reference set has the floor size 20 exactly for at most 36
      parameters; in particular 20 for the 5 of the test problem. */
  lemma RefSetSizeTwenty(nreal: nat)
    ensures RefSetSize(nreal) == 20 <==> nreal <= 36
  {
    var r := RefSetSize(nreal);
    SqIsSquare(19);
    assert Sq(19) == 361;
    if r != 20 {
      assert r - 3 >= 19;
      SquareMono(19, r - 3);
      assert 4 * 361 < 1 + 40 * nreal;
    } else {
      assert 4 * 361 >= 1 + 40 * nreal;
    }
  }

  /** The derived sizes meet what the search needs when the diverse set is
      the scatter set: a reference set of at least two members that fits
      in the diverse set, with fewer elite members than members. */
  lemma SizesFit(nreal: nat)
    ensures 2 <= SizesFor(nreal).refSetSize <= SizesFor(nreal).scatterSetSize
    ensures SizesFor(nreal).maxElite < SizesFor(nreal).refSetSize
  {
    var z := SizesFor(nreal);
    if z.refSetSize != 20 {
      var x := z.refSetSize - 3;
      SquareAbove19(x);
    }
  }

  /* ----------------------------------------------------------------------
     ReadTimes (fly/fly_io.c:2225-2266)
     ---------------------------------------------------------------------- */

  /** Capacity of the time table. */
  const TimeTableSize: nat := 10000

  /** The time table's rule: every time after the first is non-negative,
      later than the one before it and not after gastrulation. */
  predicate ValidTimes(ts: seq<real>, gast: real)
  {
    forall k :: 1 <= k < |ts| ==> 0.0 <= ts[k] && ts[k - 1] < ts[k] && ts[k] <= gast
  }

  /** ReadTimes: `values` are the numbers the time file holds, in order. An
      empty file and a time that breaks the rule are errors; otherwise the
      table holds every value as read. */
  method ReadTimes(values: seq<real>, gast: real) returns (r: Result<seq<real>, string>)
    requires |values| <= TimeTableSize
    ensures r.Ok? <==> values != [] && ValidTimes(values, gast)
    ensures r.Ok? ==> r.value == values
  {
    var tab := new real[TimeTableSize];
    if values == [] {
      return Err("ReadTimes: time file empty");
    }
    tab[0] := values[0];
    var count := 1;
    while count < |values|
      invariant 1 <= count <= |values|
      invariant tab[..count] == values[..count]
      invariant ValidTimes(values[..count], gast)
    {
      tab[count] := values[count];
      if tab[count] < 0.0 || tab[count] <= tab[count - 1] || tab[count] > gast {
        return Err("ReadTimes: invalid time(s)");
      }
      assert tab[..count + 1] == values[..count + 1];
      count := count + 1;
    }
    assert values[..count] == values;
    return Ok(tab[..count]);
  }

  lemma {:induction false} ValidTimesOrdered(ts: seq<real>, gast: real, i: nat, j: nat)
    requires ValidTimes(ts, gast) && i < j < |ts|
    ensures ts[i] < ts[j]
    decreases j - i
  {
    if i + 1 < j {
      ValidTimesOrdered(ts, gast, i, j - 1);
    }
  }

  /** An accepted time table is strictly increasing throughout, and every
      time but the first lies in `[0, gast]`. */
  lemma ValidTimesIncreasing(ts: seq<real>, gast: real)
    requires ValidTimes(ts, gast)
    ensures forall i, j :: 0 <= i < j < |ts| ==> ts[i] < ts[j]
    ensures forall k :: 1 <= k < |ts| ==> 0.0 <= ts[k] <= gast
  {
    forall i, j | 0 <= i < j < |ts| ensures ts[i] < ts[j] {
      ValidTimesOrdered(ts, gast, i, j);
    }
  }

  /** The first time is not checked: a negative start is accepted. */
  lemma FirstTimeUnchecked()
    ensures ValidTimes([-1.0, 0.5], 1.0)
  {
  }

  /* ----------------------------------------------------------------------
     InitDistribution (fly/fly_io.c:3378-3431)
     ---------------------------------------------------------------------- */

  /** What the distribution section of the input file yields: no section,
      a section whose number line does not read as an integer and a real,
      or the two values. */
  datatype DistSection = Missing | Unreadable | Given(distribution: int, q: real)

  /** The distribution choice and its shape parameter. */
  datatype DistParms = DistParms(distribution: int, q: real)

  /** The distributions the annealer accepts: 1 to 11 except the absolute
      Lorentz (3, 4) and the positive-only ones (6, 9); the general
      distribution 7 needs `1 < q < 3`. */
  predicate Admissible(distribution: int, q: real)
  {
    && 1 <= distribution <= 11
    && distribution !in {3, 4, 6, 9}
    && (distribution == 7 ==> 1.0 < q < 3.0)
  }

  /** InitDistribution: a missing section gives the exponential (1, 1.0);
      an admissible choice is kept, except that 7 with `q == 2` is the
      Lorentz distribution and is stored as 5; anything else is an error. */
  function InitDistribution(sec: DistSection): (r: Result<DistParms, string>)
    ensures r.Ok? <==> sec.Missing? || (sec.Given? && Admissible(sec.distribution, sec.q))
    ensures sec.Missing? ==> r == Ok(DistParms(1, 1.0))
    ensures r.Ok? ==> Admissible(r.value.distribution, r.value.q)
    ensures r.Ok? ==> !(r.value.distribution == 7 && r.value.q == 2.0)
    ensures r.Ok? && sec.Given? ==> r.value.q == sec.q
    ensures r.Ok? && sec.Given? && r.value.distribution != sec.distribution ==>
              sec.distribution == 7 && sec.q == 2.0 && r.value.distribution == 5
  {
    match sec
    case Missing => Ok(DistParms(1, 1.0))
    case Unreadable => Err("ReadTune: error reading distribution stuff")
    case Given(d, q) =>
      if d > 11 || d < 1 then Err("distribution must be int [1, 11]")
      else if d == 4 || d == 3 then Err("use 5 for Lorentz or 10 for normal distribution")
      else if d == 6 || d == 9 then Err("poisson or pareto distribution returns positive values")
      else if d == 7 then
        if q >= 3.0 || q <= 1.0 then Err("q must be between 1 and 3")
        else if q == 2.0 then Ok(DistParms(5, q))
        else Ok(DistParms(d, q))
      else Ok(DistParms(d, q))
  }

  /* ----------------------------------------------------------------------
     ReadTweak, mask branch (fly/fly_io.c:3016-3073)
     ---------------------------------------------------------------------- */

  /** Which parameters of each kind the annealer may change: promoter
      strengths R, the gene interaction matrix T, external inputs E,
      regulatory offsets m and h, diffusion d, decay lambda and delay tau. */
  datatype Tweak = Tweak(r: seq<int>, t: seq<int>, e: seq<int>, m: seq<int>, h: seq<int>,
                         d: seq<int>, lambda: seq<int>, tau: seq<int>)

  /** Whether the diffusion schedule has one diffusion constant for all
      genes (schedules A and C). */
  predicate OneDiffusion(schedule: char)
  {
    schedule == 'A' || schedule == 'C'
  }

  /** How many mask entries the slicing covers: `ngenes^2 + ngenes * egenes
      + 6 * ngenes`. */
  function MaskLength(ngenes: nat, egenes: nat): nat
  {
    Sq(ngenes) + Times(ngenes, egenes) + 6 * ngenes
  }

  /** Where each block starts in the mask: R (ngenes entries), T
      (ngenes^2), E (ngenes * egenes), then m, h, d, lambda and tau (ngenes
      each); entry 8 is where the last block ends. */
  function BlockStart(ngenes: nat, egenes: nat, b: nat): (o: nat)
    requires b <= 8
    ensures o <= MaskLength(ngenes, egenes)
  {
    var tail := ngenes + Sq(ngenes) + Times(ngenes, egenes);
    if b == 0 then 0
    else if b == 1 then ngenes
    else if b == 2 then ngenes + Sq(ngenes)
    else if b == 3 then tail
    else if b == 4 then tail + ngenes
    else if b == 5 then tail + 2 * ngenes
    else if b == 6 then tail + 3 * ngenes
    else if b == 7 then tail + 4 * ngenes
    else tail + 5 * ngenes
  }

  /** The length of block `b`: ngenes^2 for T, ngenes * egenes for E and
      ngenes for every other kind. */
  function BlockLength(ngenes: nat, egenes: nat, b: nat): (len: nat)
    requires b < 8
    ensures BlockStart(ngenes, egenes, b) + len == BlockStart(ngenes, egenes, b + 1)
  {
    if b == 1 then Sq(ngenes) else if b == 2 then Times(ngenes, egenes) else ngenes
  }

  /** Block `b` of the mask: its length from where it starts. */
  function Block(mask: seq<int>, ngenes: nat, egenes: nat, b: nat): seq<int>
    requires b < 8 && MaskLength(ngenes, egenes) <= |mask|
  {
    var len := BlockLength(ngenes, egenes, b);
    mask[BlockStart(ngenes, egenes, b)..BlockStart(ngenes, egenes, b) + len]
  }

  /** The tweak tables the mask describes. Under schedules A and C the
      diffusion table is only the first entry of its block. */
  function MaskLayout(mask: seq<int>, ngenes: nat, egenes: nat, schedule: char): Tweak
    requires MaskLength(ngenes, egenes) <= |mask|
    requires OneDiffusion(schedule) ==> BlockStart(ngenes, egenes, 5) < |mask|
  {
    Tweak(Block(mask, ngenes, egenes, 0), Block(mask, ngenes, egenes, 1), Block(mask, ngenes, egenes, 2),
          Block(mask, ngenes, egenes, 3), Block(mask, ngenes, egenes, 4),
          if OneDiffusion(schedule) then [mask[BlockStart(ngenes, egenes, 5)]] else Block(mask, ngenes, egenes, 5),
          Block(mask, ngenes, egenes, 6), Block(mask, ngenes, egenes, 7))
  }

  /** One block of the mask copied out entry by entry. */
  method CopyBlock(mask: array<int>, from: nat, len: nat) returns (block: seq<int>)
    requires from + len <= mask.Length
    ensures block == mask[from..from + len]
  {
    block := [];
    var i := 0;
    while i < len
      invariant i <= len
      invariant block == mask[from..from + i]
    {
      block := block + [mask[from + i]];
      i := i + 1;
    }
  }

  /** One loop of the mask branch: block `b` copied from the running offset
      `j`, which then advances by the block's length. */
  method NextBlock(mask: array<int>, ngenes: nat, egenes: nat, b: nat, j: nat) returns (block: seq<int>, j': nat)
    requires b < 8 && MaskLength(ngenes, egenes) <= mask.Length && j == BlockStart(ngenes, egenes, b)
    ensures block == Block(mask[..], ngenes, egenes, b)
    ensures j' == BlockStart(ngenes, egenes, b + 1)
  {
    block := CopyBlock(mask, j, BlockLength(ngenes, egenes, b));
    j' := j + BlockLength(ngenes, egenes, b);
  }

  /** ReadTweak with a mask: the tables are cut from the mask at a running
      offset that advances by each block's length, the diffusion block's
      included whatever the schedule. */
  method ReadTweakMask(mask: array<int>, ngenes: nat, egenes: nat, schedule: char) returns (tw: Tweak)
    requires MaskLength(ngenes, egenes) <= mask.Length
    requires OneDiffusion(schedule) ==> BlockStart(ngenes, egenes, 5) < mask.Length
    ensures tw == MaskLayout(mask[..], ngenes, egenes, schedule)
  {
    var j := 0;
    var r, t, e, m, h, d, lambda, tau;
    r, j := NextBlock(mask, ngenes, egenes, 0, j);
    t, j := NextBlock(mask, ngenes, egenes, 1, j);
    e, j := NextBlock(mask, ngenes, egenes, 2, j);
    m, j := NextBlock(mask, ngenes, egenes, 3, j);
    h, j := NextBlock(mask, ngenes, egenes, 4, j);
    if OneDiffusion(schedule) {
      d := [mask[j]];
      j := j + ngenes;
    } else {
      d, j := NextBlock(mask, ngenes, egenes, 5, j);
    }
    lambda, j := NextBlock(mask, ngenes, egenes, 6, j);
    tau, j := NextBlock(mask, ngenes, egenes, 7, j);
    tw := Tweak(r, t, e, m, h, d, lambda, tau);
  }

  /** The first `k` blocks laid end to end. */
  function Blocks(mask: seq<int>, ngenes: nat, egenes: nat, k: nat): seq<int>
    requires k <= 8 && MaskLength(ngenes, egenes) <= |mask|
  {
    if k == 0 then [] else Blocks(mask, ngenes, egenes, k - 1) + Block(mask, ngenes, egenes, k - 1)
  }

  /** The first `k` blocks are the mask up to where block `k` starts. */
  lemma {:induction false} BlocksPrefix(mask: seq<int>, ngenes: nat, egenes: nat, k: nat)
    requires k <= 8 && MaskLength(ngenes, egenes) <= |mask|
    ensures Blocks(mask, ngenes, egenes, k) == mask[..BlockStart(ngenes, egenes, k)]
  {
    if k > 0 {
      BlocksPrefix(mask, ngenes, egenes, k - 1);
      var a, len := BlockStart(ngenes, egenes, k - 1), BlockLength(ngenes, egenes, k - 1);
      assert mask[..a] + mask[a..a + len] == mask[..a + len];
    }
  }

  /** The blocks lie end to end: laid one after another they give back the
      mask's first MaskLength entries, whatever the schedule. */
  lemma MaskBlocksTile(mask: seq<int>, ngenes: nat, egenes: nat, schedule: char)
    requires MaskLength(ngenes, egenes) <= |mask|
    requires OneDiffusion(schedule) ==> BlockStart(ngenes, egenes, 5) < |mask|
    ensures var tw := MaskLayout(mask, ngenes, egenes, schedule);
      tw.r + tw.t + tw.e + tw.m + tw.h + Block(mask, ngenes, egenes, 5) + tw.lambda + tw.tau
        == mask[..MaskLength(ngenes, egenes)]
  {
    var tw := MaskLayout(mask, ngenes, egenes, schedule);
    var d := Block(mask, ngenes, egenes, 5);
    assert Blocks(mask, ngenes, egenes, 1) == tw.r;
    assert Blocks(mask, ngenes, egenes, 2) == tw.r + tw.t;
    assert Blocks(mask, ngenes, egenes, 3) == tw.r + tw.t + tw.e;
    assert Blocks(mask, ngenes, egenes, 4) == tw.r + tw.t + tw.e + tw.m;
    assert Blocks(mask, ngenes, egenes, 5) == tw.r + tw.t + tw.e + tw.m + tw.h;
    assert Blocks(mask, ngenes, egenes, 6) == tw.r + tw.t + tw.e + tw.m + tw.h + d;
    assert Blocks(mask, ngenes, egenes, 7) == tw.r + tw.t + tw.e + tw.m + tw.h + d + tw.lambda;
    assert Blocks(mask, ngenes, egenes, 8) == tw.r + tw.t + tw.e + tw.m + tw.h + d + tw.lambda + tw.tau;
    BlocksPrefix(mask, ngenes, egenes, 8);
  }

  /** The tables have the sizes ReadTweak allocates, and the diffusion
      schedule changes only the diffusion table. */
  lemma MaskLayoutShape(mask: seq<int>, ngenes: nat, egenes: nat, schedule: char, other: char)
    requires MaskLength(ngenes, egenes) <= |mask|
    requires OneDiffusion(schedule) ==> BlockStart(ngenes, egenes, 5) < |mask|
    requires OneDiffusion(other) ==> BlockStart(ngenes, egenes, 5) < |mask|
    ensures var tw := MaskLayout(mask, ngenes, egenes, schedule);
      && |tw.r| == ngenes && |tw.t| == ngenes * ngenes && |tw.e| == ngenes * egenes
      && |tw.m| == ngenes && |tw.h| == ngenes && |tw.lambda| == ngenes && |tw.tau| == ngenes
      && |tw.d| == (if OneDiffusion(schedule) then 1 else ngenes)
    ensures var tw := MaskLayout(mask, ngenes, egenes, schedule);
      var tw' := MaskLayout(mask, ngenes, egenes, other);
      tw.(d := []) == tw'.(d := [])
  {
    SqIsSquare(ngenes);
    TimesIsProduct(ngenes, egenes);
  }
}
