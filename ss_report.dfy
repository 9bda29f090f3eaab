/** ss/report.c: the text written for a set of individuals (`write_set`,
    `write_ind`) and for the integer frequency matrix (`write_int_matrix`),
    and how `parse_int_row` (ss/ssTools.c) reads a matrix row back.

    An output file is an `OutFile` holding everything written to it. The
    floating-point conversions `%.5lf` and `%lf` are function parameters:
    the model fixes where each field goes, not how a double is printed. */
module SSReport {
  import opened Util
  import opened SSTypes
  import opened SSParams
  import opened CText
  import SSTools

  /** An open output file: the text written to it so far. */
  class OutFile {
    var text: string

    constructor ()
      ensures text == []
    {
      text := [];
    }

    /** One fprintf of already formatted text. */
    method Write(s: string)
      modifies this
      ensures text == old(text) + s
    {
      text := text + s;
    }
  }

  /** How many passes a loop `for (i = 0; i < n; i++)` makes. */
  function Upto(n: int): nat
  {
    if n > 0 then n else 0
  }

  /** One field of a line: some text, with no tab or newline in it. */
  predicate Field(s: string)
  {
    s != [] && forall k :: 0 <= k < |s| ==> s[k] != '\t' && s[k] != '\n'
  }

  lemma DecimalField(n: int)
    ensures Field(IntToString(n))
  {
  }

  // ---------------------------------------------------------------------------
  // write_int_matrix and parse_int_row

  /** `"\t<v>"` for each value, in order. */
  function Cells(vals: seq<int>): string
  {
    if vals == [] then [] else ['\t'] + (IntToString(vals[0]) + Cells(vals[1..]))
  }

  lemma {:induction false} CellsSnoc(vals: seq<int>, v: int)
    ensures Cells(vals + [v]) == Cells(vals) + (['\t'] + IntToString(v))
  {
    var c := ['\t'] + IntToString(v);
    if vals == [] {
      assert Cells([v]) == ['\t'] + (IntToString(v) + Cells([]));
    } else {
      var a := IntToString(vals[0]);
      assert (vals + [v])[1..] == vals[1..] + [v];
      CellsSnoc(vals[1..], v);
      ConcatAssoc(a, Cells(vals[1..]), c);
      ConcatAssoc(['\t'], a + Cells(vals[1..]), c);
    }
  }

  lemma {:induction false} CellsOneLine(vals: seq<int>)
    ensures '\n' !in Cells(vals)
  {
    if vals != [] {
      DecimalField(vals[0]);
      CellsOneLine(vals[1..]);
    }
  }

  /** The iteration number that opens a line, absent when it is -1. */
  function Lead(iter: int): string
  {
    if iter != -1 then IntToString(iter) else []
  }

  /** A line of write_int_matrix without its newline. */
  function RowHead(vals: seq<int>, iter: int): string
  {
    Lead(iter) + Cells(vals)
  }

  /** The line write_int_matrix writes for one row. */
  function RowLine(vals: seq<int>, iter: int): string
  {
    RowHead(vals, iter) + "\n"
  }

  /** The first `col` entries of each of the first `row` rows. */
  function Rows(matrix: seq<seq<int>>, row: int, col: int): (rs: seq<seq<int>>)
    requires row <= |matrix| && forall r :: 0 <= r < row ==> col <= |matrix[r]|
    ensures |rs| == Upto(row)
    ensures forall r :: 0 <= r < Upto(row) ==> rs[r] == matrix[r][..Upto(col)]
  {
    seq(Upto(row), r requires 0 <= r < Upto(row) => matrix[r][..Upto(col)])
  }

  /** The rows' lines without their newlines, in order. */
  function RowHeads(rows: seq<seq<int>>, iter: int): (hs: seq<string>)
    ensures |hs| == |rows|
  {
    seq(|rows|, r requires 0 <= r < |rows| => RowHead(rows[r], iter))
  }

  /** The lines of several rows, in order. */
  function MatrixText(rows: seq<seq<int>>, iter: int): string
  {
    Join(RowHeads(rows, iter))
  }

  lemma MatrixTextSnoc(rows: seq<seq<int>>, vals: seq<int>, iter: int)
    ensures MatrixText(rows + [vals], iter) == MatrixText(rows, iter) + RowLine(vals, iter)
  {
    assert RowHeads(rows + [vals], iter) == RowHeads(rows, iter) + [RowHead(vals, iter)];
    JoinSnoc(RowHeads(rows, iter), RowHead(vals, iter));
  }

  /** One more cell written after the first `c`. */
  lemma CellsStep(before: string, row: seq<int>, c: nat)
    requires c < |row|
    ensures before + Cells(row[..c]) + (['\t'] + IntToString(row[c])) == before + Cells(row[..c + 1])
  {
    assert row[..c + 1] == row[..c] + [row[c]];
    CellsSnoc(row[..c], row[c]);
    ConcatAssoc(before, Cells(row[..c]), ['\t'] + IntToString(row[c]));
  }

  /** The cells loop of write_int_matrix for row `r`. */
  method WriteCells(matrix: seq<seq<int>>, r: int, col: int, out: OutFile)
    requires 0 <= r < |matrix| && col <= |matrix[r]|
    modifies out
    ensures out.text == old(out.text) + Cells(matrix[r][..Upto(col)])
  {
    ghost var before := out.text;
    ghost var row := matrix[r];
    var c := 0;
    while c < col
      invariant 0 <= c <= Upto(col)
      invariant out.text == before + Cells(row[..c])
    {
      CellsStep(before, row, c);
      out.Write(['\t'] + IntToString(matrix[r][c]));
      c := c + 1;
    }
  }

  /** The body of write_int_matrix's row loop: the line for row `r`. */
  method WriteRow(matrix: seq<seq<int>>, r: int, col: int, out: OutFile, iter: int)
    requires 0 <= r < |matrix| && col <= |matrix[r]|
    modifies out
    ensures out.text == old(out.text) + RowLine(matrix[r][..Upto(col)], iter)
  {
    ghost var before := out.text;
    ghost var vals := matrix[r][..Upto(col)];
    if iter != -1 {
      out.Write(IntToString(iter));
    } else {
      assert before + Lead(iter) == before;
    }
    WriteCells(matrix, r, col, out);
    ConcatAssoc(before, Lead(iter), Cells(vals));
    out.Write("\n");
    ConcatAssoc(before, RowHead(vals, iter), "\n");
  }

  /** write_int_matrix: one line per row, the row's first `col` values
      each after a tab, the line opened by the iteration number unless it
      is -1. */
  method WriteIntMatrix(ss: SSType, matrix: seq<seq<int>>, row: int, col: int, out: OutFile, iter: int, mode: char)
    requires row <= |matrix| && forall r :: 0 <= r < row ==> col <= |matrix[r]|
    modifies out
    ensures out.text == old(out.text) + MatrixText(Rows(matrix, row, col), iter)
  {
    ghost var start := out.text;
    ghost var rows := Rows(matrix, row, col);
    var r := 0;
    while r < row
      invariant 0 <= r <= Upto(row)
      invariant out.text == start + MatrixText(rows[..r], iter)
    {
      WriteRow(matrix, r, col, out, iter);
      assert rows[..r + 1] == rows[..r] + [rows[r]];
      MatrixTextSnoc(rows[..r], rows[r], iter);
      ConcatAssoc(start, MatrixText(rows[..r], iter), RowLine(rows[r], iter));
      r := r + 1;
    }
    assert rows[..Upto(row)] == rows;
  }

  /** The strings `%d` prints for the values, in order. */
  function Decimals(vals: seq<int>): (ds: seq<string>)
    ensures |ds| == |vals|
  {
    seq(|vals|, k requires 0 <= k < |vals| => IntToString(vals[k]))
  }

  lemma DecimalsCons(vals: seq<int>)
    requires vals != []
    ensures Decimals(vals) == [IntToString(vals[0])] + Decimals(vals[1..])
  {
    assert forall k :: 1 <= k < |vals| ==> Decimals(vals)[k] == Decimals(vals[1..])[k - 1];
  }

  /** Split at tabs and newlines, the cells give their values' decimals in
      order. */
  lemma {:induction false} CellsTokens(vals: seq<int>, tail: string)
    requires tail == [] || tail[0] in SSTools.TabOrNewline
    ensures Tokens(Cells(vals) + tail, SSTools.TabOrNewline) == Decimals(vals) + Tokens(tail, SSTools.TabOrNewline)
  {
    var delims := SSTools.TabOrNewline;
    if vals == [] {
      assert Cells(vals) + tail == tail;
      assert Decimals(vals) + Tokens(tail, delims) == Tokens(tail, delims);
    } else {
      var a := IntToString(vals[0]);
      DecimalField(vals[0]);
      var more := Cells(vals[1..]) + tail;
      ConcatAssoc(['\t'], a + Cells(vals[1..]), tail);
      ConcatAssoc(a, Cells(vals[1..]), tail);
      TokensSkipDelim('\t', a + more, delims);
      assert more == [] || more[0] in delims;
      TokensFirst(a, more, delims);
      CellsTokens(vals[1..], tail);
      DecimalsCons(vals);
      ConcatAssoc([a], Decimals(vals[1..]), Tokens(tail, delims));
    }
  }

  /** The tokens parse_int_row finds in a line of a first field and cells:
      the first token is split off at a tab only, so with no cells it keeps
      the newline. */
  lemma LineTokens(a: string, vals: seq<int>)
    requires Field(a)
    ensures Strtok(a + (Cells(vals) + "\n"), SSTools.Tab, SSTools.TabOrNewline) ==
            if vals == [] then [a + "\n"] else [a] + Decimals(vals)
  {
    var delims := SSTools.TabOrNewline;
    var rest := Cells(vals) + "\n";
    if vals == [] {
      assert rest == "\n";
      StrtokWhole(a + "\n", SSTools.Tab, delims);
    } else {
      assert Strtok(a + rest, SSTools.Tab, delims) == [a] + Tokens(rest, delims) by {
        StrtokFirst(a, rest, SSTools.Tab, delims);
        assert rest == ['\t'] + rest[1..];
        TokensSkipDelim('\t', rest[1..], delims);
      }
      assert Tokens("\n", delims) == [] by {
        assert "\n" == ['\n'] + [];
        TokensSkipDelim('\n', [], delims);
      }
      assert Tokens(rest, delims) == Decimals(vals) by {
        CellsTokens(vals, "\n");
        assert Decimals(vals) + [] == Decimals(vals);
      }
    }
  }

  /** atoi reads back every value `%d` printed. */
  lemma AtoiDecimals(vals: seq<int>)
    ensures SSTools.AtoiAll(Decimals(vals)) == vals
  {
    forall k | 0 <= k < |vals| ensures Atoi(IntToString(vals[k])) == vals[k] {
      AtoiIntToString(vals[k], []);
      assert IntToString(vals[k]) + [] == IntToString(vals[k]);
    }
  }

  /** The values of a first token and then some more. */
  lemma AtoiAllCons(t: string, ts: seq<string>)
    ensures SSTools.AtoiAll([t] + ts) == [Atoi(t)] + SSTools.AtoiAll(ts)
  {
    var l := SSTools.AtoiAll([t] + ts);
    var r := [Atoi(t)] + SSTools.AtoiAll(ts);
    assert forall k :: 1 <= k < |l| ==> ([t] + ts)[k] == ts[k - 1];
    assert forall k :: 0 <= k < |l| ==> l[k] == r[k];
  }

  /** parse_int_row on a line made of the printed number `v` and cells. */
  lemma NumberLineValues(v: int, vals: seq<int>)
    ensures SSTools.RowValues(IntToString(v) + (Cells(vals) + "\n")) == [v] + vals
  {
    var a := IntToString(v);
    DecimalField(v);
    LineTokens(a, vals);
    if vals == [] {
      AtoiIntToString(v, "\n");
      assert SSTools.AtoiAll([a + "\n"]) == [Atoi(a + "\n")];
    } else {
      AtoiIntToString(v, []);
      assert a + [] == a;
      AtoiAllCons(a, Decimals(vals));
      AtoiDecimals(vals);
    }
  }

  /** Round trip of one row: parse_int_row on a line of write_int_matrix
      yields the iteration number, when there is one, followed by the row's
      values. A row needs at least one value when there is no iteration
      number. */
  lemma RowRoundTrip(vals: seq<int>, iter: int)
    requires iter != -1 || vals != []
    ensures SSTools.RowValues(RowLine(vals, iter)) == (if iter != -1 then [iter] else []) + vals
  {
    if iter != -1 {
      ConcatAssoc(IntToString(iter), Cells(vals), "\n");
      NumberLineValues(iter, vals);
    } else {
      var a := IntToString(vals[0]);
      var rest := a + (Cells(vals[1..]) + "\n");
      assert RowHead(vals, iter) == ['\t'] + (a + Cells(vals[1..]));
      ConcatAssoc(['\t'], a + Cells(vals[1..]), "\n");
      ConcatAssoc(a, Cells(vals[1..]), "\n");
      assert RowLine(vals, iter) == ['\t'] + rest;
      StrtokSkipDelim('\t', rest, SSTools.Tab, SSTools.TabOrNewline);
      NumberLineValues(vals[0], vals[1..]);
      assert [vals[0]] + vals[1..] == vals;
    }
  }

  /** A row of no values written without an iteration number is the bare
      newline, which parse_int_row reads as one value 0. */
  lemma EmptyRowReadsZero()
    ensures RowLine([], -1) == "\n"
    ensures SSTools.RowValues(RowLine([], -1)) == [0]
  {
    var line := RowLine([], -1);
    assert line == "\n";
    StrtokWhole(line, SSTools.Tab, SSTools.TabOrNewline);
    assert SkipSpace(line) == [];
    assert Atoi(line) == 0;
  }

  /** The text of the matrix splits into exactly its row lines. */
  lemma MatrixLines(rows: seq<seq<int>>, iter: int)
    ensures Lines(MatrixText(rows, iter)) == RowHeads(rows, iter)
  {
    forall r | 0 <= r < |rows| ensures '\n' !in RowHeads(rows, iter)[r] {
      CellsOneLine(rows[r]);
      DecimalField(iter);
    }
    LinesJoin(RowHeads(rows, iter));
  }

  /** Round trip of the whole matrix: each line of the text, read back
      with its newline, gives the iteration number, when there is one,
      followed by that row's values. */
  lemma MatrixRoundTrip(rows: seq<seq<int>>, iter: int)
    requires iter != -1 || forall r :: 0 <= r < |rows| ==> rows[r] != []
    ensures |Lines(MatrixText(rows, iter))| == |rows|
    ensures forall r :: 0 <= r < |rows| ==>
              SSTools.RowValues(Lines(MatrixText(rows, iter))[r] + "\n") == (if iter != -1 then [iter] else []) + rows[r]
  {
    MatrixLines(rows, iter);
    forall r | 0 <= r < |rows|
      ensures SSTools.RowValues(Lines(MatrixText(rows, iter))[r] + "\n") == (if iter != -1 then [iter] else []) + rows[r]
    {
      RowRoundTrip(rows[r], iter);
    }
  }

  // ---------------------------------------------------------------------------
  // write_ind and write_set

  /** `"<x>\t"` for each value, formatted by `fmt`. */
  function Fields(xs: seq<real>, fmt: real -> string): string
  {
    if xs == [] then [] else fmt(xs[0]) + (['\t'] + Fields(xs[1..], fmt))
  }

  lemma {:induction false} FieldsSnoc(xs: seq<real>, x: real, fmt: real -> string)
    ensures Fields(xs + [x], fmt) == Fields(xs, fmt) + (fmt(x) + ['\t'])
  {
    var f := fmt(x) + ['\t'];
    if xs == [] {
      assert Fields([x], fmt) == fmt(x) + (['\t'] + Fields([], fmt));
    } else {
      var a := fmt(xs[0]);
      assert (xs + [x])[1..] == xs[1..] + [x];
      FieldsSnoc(xs[1..], x, fmt);
      ConcatAssoc(['\t'], Fields(xs[1..], fmt), f);
      ConcatAssoc(a, ['\t'] + Fields(xs[1..], fmt), f);
    }
  }

  /** `"<iter>\t"` unless the iteration number is -1. */
  function Head(iter: int): string
  {
    if iter != -1 then IntToString(iter) + ['\t'] else []
  }

  /** A write_ind line up to its first `i` parameters. */
  function IndHead(x: Individual, i: nat, iter: int, fixed5: real -> string): string
    requires i <= |x.params|
  {
    Head(iter) + Fields(x.params[..i], fixed5)
  }

  /** The line write_ind writes: the iteration number and a tab unless it
      is -1, the first `memberLength` parameters each followed by a tab,
      then the cost and a newline. */
  function IndLine(x: Individual, memberLength: int, iter: int, fixed5: real -> string, fixed6: real -> string): string
    requires Upto(memberLength) <= |x.params|
  {
    IndBody(x, memberLength, iter, fixed5, fixed6) + "\n"
  }

  /** A write_ind line without its newline. */
  function IndBody(x: Individual, memberLength: int, iter: int, fixed5: real -> string, fixed6: real -> string): string
    requires Upto(memberLength) <= |x.params|
  {
    IndHead(x, Upto(memberLength), iter, fixed5) + fixed6(x.cost)
  }

  lemma IndHeadNext(x: Individual, i: nat, iter: int, fixed5: real -> string)
    requires i < |x.params|
    ensures IndHead(x, i + 1, iter, fixed5) == IndHead(x, i, iter, fixed5) + (fixed5(x.params[i]) + ['\t'])
  {
    assert x.params[..i + 1] == x.params[..i] + [x.params[i]];
    FieldsSnoc(x.params[..i], x.params[i], fixed5);
    ConcatAssoc(Head(iter), Fields(x.params[..i], fixed5), fixed5(x.params[i]) + ['\t']);
  }

  /** write_ind */
  method WriteInd(ss: SSType, ind: Individual, memberLength: int, out: OutFile, iter: int, mode: char,
                  fixed5: real -> string, fixed6: real -> string)
    requires Upto(memberLength) <= |ind.params|
    modifies out
    ensures out.text == old(out.text) + IndLine(ind, memberLength, iter, fixed5, fixed6)
  {
    ghost var start := out.text;
    if iter != -1 {
      out.Write(IntToString(iter) + "\t");
    } else {
      assert start + Head(iter) == start;
    }
    assert ind.params[..0] == [];
    assert out.text == start + IndHead(ind, 0, iter, fixed5);
    var i := 0;
    while i < memberLength
      invariant 0 <= i <= Upto(memberLength)
      invariant out.text == start + IndHead(ind, i, iter, fixed5)
    {
      var field := fixed5(ind.params[i]) + "\t";
      IndHeadNext(ind, i, iter, fixed5);
      ConcatAssoc(start, IndHead(ind, i, iter, fixed5), field);
      out.Write(field);
      i := i + 1;
    }
    ConcatAssoc(IndHead(ind, i, iter, fixed5), fixed6(ind.cost), "\n");
    ConcatAssoc(start, IndHead(ind, i, iter, fixed5), fixed6(ind.cost) + "\n");
    out.Write(fixed6(ind.cost) + "\n");
  }

  /** Every member carries at least `memberLength` parameters. */
  predicate LongEnough(ms: seq<Individual>, memberLength: int)
  {
    forall k :: 0 <= k < |ms| ==> Upto(memberLength) <= |ms[k].params|
  }

  /** The members' lines without their newlines, in order. */
  function IndBodies(ms: seq<Individual>, memberLength: int, iter: int, fixed5: real -> string, fixed6: real -> string): (bs: seq<string>)
    requires LongEnough(ms, memberLength)
    ensures |bs| == |ms|
  {
    seq(|ms|, k requires 0 <= k < |ms| => IndBody(ms[k], memberLength, iter, fixed5, fixed6))
  }

  /** The lines of several members, in order. */
  function SetText(ms: seq<Individual>, memberLength: int, iter: int, fixed5: real -> string, fixed6: real -> string): string
    requires LongEnough(ms, memberLength)
  {
    Join(IndBodies(ms, memberLength, iter, fixed5, fixed6))
  }

  lemma SetTextSnoc(ms: seq<Individual>, x: Individual, memberLength: int, iter: int,
                    fixed5: real -> string, fixed6: real -> string)
    requires LongEnough(ms, memberLength) && Upto(memberLength) <= |x.params|
    ensures LongEnough(ms + [x], memberLength)
    ensures SetText(ms + [x], memberLength, iter, fixed5, fixed6) ==
            SetText(ms, memberLength, iter, fixed5, fixed6) + IndLine(x, memberLength, iter, fixed5, fixed6)
  {
    assert forall k :: 0 <= k < |ms| ==> (ms + [x])[k] == ms[k];
    assert IndBodies(ms + [x], memberLength, iter, fixed5, fixed6) ==
           IndBodies(ms, memberLength, iter, fixed5, fixed6) + [IndBody(x, memberLength, iter, fixed5, fixed6)];
    JoinSnoc(IndBodies(ms, memberLength, iter, fixed5, fixed6), IndBody(x, memberLength, iter, fixed5, fixed6));
  }

  /** write_set: one write_ind line per member of `members[0..setSize)`, in
      index order. */
  method WriteSet(ss: SSType, members: array<Individual>, setSize: int, memberLength: int, out: OutFile,
                  iter: int, mode: char, fixed5: real -> string, fixed6: real -> string)
    requires setSize <= members.Length && LongEnough(members[..Upto(setSize)], memberLength)
    modifies out
    ensures out.text == old(out.text) + SetText(members[..Upto(setSize)], memberLength, iter, fixed5, fixed6)
  {
    ghost var start := out.text;
    var i := 0;
    while i < setSize
      invariant 0 <= i <= Upto(setSize)
      invariant LongEnough(members[..i], memberLength)
      invariant out.text == start + SetText(members[..i], memberLength, iter, fixed5, fixed6)
    {
      assert members[..i + 1] == members[..i] + [members[i]];
      assert members[..Upto(setSize)][i] == members[i];
      SetTextSnoc(members[..i], members[i], memberLength, iter, fixed5, fixed6);
      ConcatAssoc(start, SetText(members[..i], memberLength, iter, fixed5, fixed6), IndLine(members[i], memberLength, iter, fixed5, fixed6));
      WriteInd(ss, members[i], memberLength, out, iter, mode, fixed5, fixed6);
      i := i + 1;
    }
    assert members[..i] == members[..Upto(setSize)];
  }

  /** The texts `fmt` prints for the values, in order. */
  function Formatted(xs: seq<real>, fmt: real -> string): (fs: seq<string>)
    ensures |fs| == |xs|
  {
    seq(|xs|, i requires 0 <= i < |xs| => fmt(xs[i]))
  }

  /** Every text is one field. */
  predicate AllFields(fs: seq<string>)
  {
    forall k :: 0 <= k < |fs| ==> Field(fs[k])
  }

  /** Split at tabs and newlines, the fields become tokens in order. */
  lemma {:induction false} FieldsTokens(xs: seq<real>, fmt: real -> string, tail: string)
    requires AllFields(Formatted(xs, fmt))
    ensures Tokens(Fields(xs, fmt) + tail, SSTools.TabOrNewline) == Formatted(xs, fmt) + Tokens(tail, SSTools.TabOrNewline)
  {
    var delims := SSTools.TabOrNewline;
    if xs == [] {
      assert Fields(xs, fmt) + tail == tail;
      assert Formatted(xs, fmt) + Tokens(tail, delims) == Tokens(tail, delims);
    } else {
      var a := fmt(xs[0]);
      var more := Fields(xs[1..], fmt) + tail;
      assert Formatted(xs, fmt) == [a] + Formatted(xs[1..], fmt);
      assert Field(Formatted(xs, fmt)[0]);
      assert forall k :: 0 <= k < |xs| - 1 ==> Formatted(xs[1..], fmt)[k] == Formatted(xs, fmt)[k + 1];
      ConcatAssoc(['\t'], Fields(xs[1..], fmt), tail);
      ConcatAssoc(a, ['\t'] + Fields(xs[1..], fmt), tail);
      TokensFirst(a, ['\t'] + more, delims);
      TokensSkipDelim('\t', more, delims);
      FieldsTokens(xs[1..], fmt, tail);
      ConcatAssoc([a], Formatted(xs[1..], fmt), Tokens(tail, delims));
    }
  }

  /** After the iteration number: the parameters' fields and the cost. */
  lemma BodyTokens(xs: seq<real>, c: string, fixed5: real -> string)
    requires AllFields(Formatted(xs, fixed5)) && Field(c)
    ensures Tokens(Fields(xs, fixed5) + (c + "\n"), SSTools.TabOrNewline) == Formatted(xs, fixed5) + [c]
  {
    var delims := SSTools.TabOrNewline;
    assert Tokens(c + "\n", delims) == [c] by {
      TokensFirst(c, "\n", delims);
      assert "\n" == ['\n'] + [];
      TokensSkipDelim('\n', [], delims);
    }
    FieldsTokens(xs, fixed5, c + "\n");
  }

  /** The structure of a write_ind line: split at tabs and newlines it
      gives the iteration number (unless -1), one field per parameter in
      order, and the cost. */
  lemma IndLineFields(x: Individual, memberLength: int, iter: int, fixed5: real -> string, fixed6: real -> string)
    requires Upto(memberLength) <= |x.params|
    requires AllFields(Formatted(x.params[..Upto(memberLength)], fixed5)) && Field(fixed6(x.cost))
    ensures Tokens(IndLine(x, memberLength, iter, fixed5, fixed6), SSTools.TabOrNewline) ==
            (if iter != -1 then [IntToString(iter)] else []) + Formatted(x.params[..Upto(memberLength)], fixed5) + [fixed6(x.cost)]
  {
    var delims := SSTools.TabOrNewline;
    var xs := x.params[..Upto(memberLength)];
    var c := fixed6(x.cost);
    var body := Fields(xs, fixed5) + (c + "\n");
    BodyTokens(xs, c, fixed5);
    assert IndLine(x, memberLength, iter, fixed5, fixed6) == Head(iter) + body by {
      ConcatAssoc(IndHead(x, Upto(memberLength), iter, fixed5), c, "\n");
      ConcatAssoc(Head(iter), Fields(xs, fixed5), c + "\n");
    }
    if iter != -1 {
      var n := IntToString(iter);
      assert Tokens(Head(iter) + body, delims) == [n] + Tokens(body, delims) by {
        DecimalField(iter);
        ConcatAssoc(n, ['\t'], body);
        TokensFirst(n, ['\t'] + body, delims);
        TokensSkipDelim('\t', body, delims);
      }
      ConcatAssoc([n], Formatted(xs, fixed5), [c]);
    } else {
      assert Head(iter) + body == body;
    }
  }

  /** Every member prints as fields: the formatted parameters and cost
      hold no tab or newline. */
  predicate Printable(ms: seq<Individual>, memberLength: int, fixed5: real -> string, fixed6: real -> string)
    requires LongEnough(ms, memberLength)
  {
    forall k :: 0 <= k < |ms| ==>
      AllFields(Formatted(ms[k].params[..Upto(memberLength)], fixed5)) && Field(fixed6(ms[k].cost))
  }

  lemma {:induction false} FieldsOneLine(xs: seq<real>, fmt: real -> string)
    requires AllFields(Formatted(xs, fmt))
    ensures '\n' !in Fields(xs, fmt)
  {
    if xs != [] {
      assert Field(Formatted(xs, fmt)[0]);
      assert forall k :: 0 <= k < |xs| - 1 ==> Formatted(xs[1..], fmt)[k] == Formatted(xs, fmt)[k + 1];
      FieldsOneLine(xs[1..], fmt);
    }
  }

  /** The text of write_set splits into one line per member, in index
      order. */
  lemma SetLines(ms: seq<Individual>, memberLength: int, iter: int, fixed5: real -> string, fixed6: real -> string)
    requires LongEnough(ms, memberLength) && Printable(ms, memberLength, fixed5, fixed6)
    ensures Lines(SetText(ms, memberLength, iter, fixed5, fixed6)) == IndBodies(ms, memberLength, iter, fixed5, fixed6)
  {
    var bs := IndBodies(ms, memberLength, iter, fixed5, fixed6);
    forall k | 0 <= k < |ms| ensures '\n' !in bs[k] {
      FieldsOneLine(ms[k].params[..Upto(memberLength)], fixed5);
      DecimalField(iter);
      assert Field(fixed6(ms[k].cost));
    }
    LinesJoin(bs);
  }

  /** Reading write_set's output line by line: each line, split at tabs
      and newlines, gives that member's iteration number (unless -1),
      parameters and cost, in order. */
  lemma SetRoundTrip(ms: seq<Individual>, memberLength: int, iter: int, fixed5: real -> string, fixed6: real -> string)
    requires LongEnough(ms, memberLength) && Printable(ms, memberLength, fixed5, fixed6)
    ensures |Lines(SetText(ms, memberLength, iter, fixed5, fixed6))| == |ms|
    ensures forall k :: 0 <= k < |ms| ==>
              Tokens(Lines(SetText(ms, memberLength, iter, fixed5, fixed6))[k] + "\n", SSTools.TabOrNewline) ==
              (if iter != -1 then [IntToString(iter)] else []) + Formatted(ms[k].params[..Upto(memberLength)], fixed5) + [fixed6(ms[k].cost)]
  {
    SetLines(ms, memberLength, iter, fixed5, fixed6);
    forall k | 0 <= k < |ms|
      ensures Tokens(Lines(SetText(ms, memberLength, iter, fixed5, fixed6))[k] + "\n", SSTools.TabOrNewline) ==
              (if iter != -1 then [IntToString(iter)] else []) + Formatted(ms[k].params[..Upto(memberLength)], fixed5) + [fixed6(ms[k].cost)]
    {
      IndLineFields(ms[k], memberLength, iter, fixed5, fixed6);
    }
  }
}
