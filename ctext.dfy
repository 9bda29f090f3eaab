/** C string handling used by the parsers and writers: NUL-terminated
    buffers, `strtok` tokenising, decimal printing with `%d` and `atoi`.

    Strings are `seq<char>`; a C buffer is a `seq<char>` whose logical content
    ends at the first NUL. */
module CText {

  const NUL: char := 0 as char

  /** The C string held in a buffer: everything before the first NUL. */
  function CStr(buf: seq<char>): (s: seq<char>)
    ensures NUL !in s
    ensures s <= buf
    ensures |s| < |buf| ==> buf[|s|] == NUL
  {
    if buf == [] || buf[0] == NUL then [] else [buf[0]] + CStr(buf[1..])
  }

  // ---------------------------------------------------------------------------
  // strtok

  /** `s` with its leading delimiter characters dropped. */
  function SkipLead(s: string, delims: set<char>): (t: string)
    ensures |t| <= |s|
    ensures t != [] ==> t[0] !in delims
  {
    if s != [] && s[0] in delims then SkipLead(s[1..], delims) else s
  }

  /** Length of the longest prefix of `s` free of delimiters. */
  function TokLen(s: string, delims: set<char>): (n: nat)
    ensures n <= |s|
    ensures forall k :: 0 <= k < n ==> s[k] !in delims
    ensures n < |s| ==> s[n] in delims
  {
    if s == [] || s[0] in delims then 0 else 1 + TokLen(s[1..], delims)
  }

  /** One `strtok` call with delimiter set `delims` on what is left of the
      string: the token (empty when there is none) and what is left after it.
      The character that ends a token is overwritten with NUL, so the next
      call starts after it, whatever that call's delimiter set is. */
  function NextTok(s: string, delims: set<char>): (r: (string, string))
    ensures r.0 == [] <==> SkipLead(s, delims) == []
    ensures r.0 != [] ==> |r.1| < |s|
    ensures forall k :: 0 <= k < |r.0| ==> r.0[k] !in delims
  {
    var t := SkipLead(s, delims);
    if t == [] then ([], [])
    else
      var n := TokLen(t, delims);
      (t[..n], if n < |t| then t[n + 1..] else [])
  }

  /** The tokens successive `strtok(NULL, delims)` calls return. */
  function Tokens(s: string, delims: set<char>): (ts: seq<string>)
    decreases |s|
    ensures forall k :: 0 <= k < |ts| ==> ts[k] != []
  {
    var (tok, rest) := NextTok(s, delims);
    if tok == [] then [] else [tok] + Tokens(rest, delims)
  }

  /** The tokens of `for (tok = strtok(line, first); tok && *tok; tok = strtok(NULL, later))`. */
  function Strtok(line: string, first: set<char>, later: set<char>): (ts: seq<string>)
    ensures forall k :: 0 <= k < |ts| ==> ts[k] != []
  {
    var (tok, rest) := NextTok(line, first);
    if tok == [] then [] else [tok] + Tokens(rest, later)
  }

  /** A token ends where the first delimiter follows a delimiter-free
      prefix. */
  lemma TokLenPrefix(a: string, rest: string, delims: set<char>)
    requires forall k :: 0 <= k < |a| ==> a[k] !in delims
    requires rest != [] && rest[0] in delims
    ensures TokLen(a + rest, delims) == |a|
  {
    var n := TokLen(a + rest, delims);
    assert (a + rest)[|a|] == rest[0];
  }

  /** A leading delimiter is skipped like any other: the same tokens
      follow. */
  lemma TokensSkipDelim(d: char, s: string, delims: set<char>)
    requires d in delims
    ensures Tokens([d] + s, delims) == Tokens(s, delims)
  {
    assert ([d] + s)[1..] == s;
    assert NextTok([d] + s, delims) == NextTok(s, delims);
  }

  /** A token followed by a delimiter: the token is returned and the
      tokens of what follows the delimiter come next. */
  lemma TokensCons(a: string, d: char, rest: string, delims: set<char>)
    requires a != [] && forall k :: 0 <= k < |a| ==> a[k] !in delims
    requires d in delims
    ensures Tokens(a + [d] + rest, delims) == [a] + Tokens(rest, delims)
  {
    var s := a + [d] + rest;
    assert s == a + ([d] + rest);
    assert SkipLead(s, delims) == s;
    TokLenPrefix(a, [d] + rest, delims);
    assert s[..|a|] == a && s[|a| + 1..] == rest;
  }

  /** A string free of delimiters is one token. */
  lemma {:induction false} TokLenWhole(a: string, delims: set<char>)
    requires forall k :: 0 <= k < |a| ==> a[k] !in delims
    ensures TokLen(a, delims) == |a|
  {
    if a != [] {
      TokLenWhole(a[1..], delims);
    }
  }

  /** The first call of a strtok loop skips leading delimiters too. */
  lemma StrtokSkipDelim(d: char, s: string, first: set<char>, later: set<char>)
    requires d in first
    ensures Strtok([d] + s, first, later) == Strtok(s, first, later)
  {
    assert ([d] + s)[1..] == s;
    assert SkipLead([d] + s, first) == SkipLead(s, first);
    var (tok, rest) := NextTok(s, first);
    assert NextTok([d] + s, first) == (tok, rest);
    assert Strtok(s, first, later) == if tok == [] then [] else [tok] + Tokens(rest, later);
  }

  /** The first token ends at the first delimiter of the first set; the
      later ones are split with the later set. */
  lemma StrtokCons(a: string, d: char, rest: string, first: set<char>, later: set<char>)
    requires a != [] && forall k :: 0 <= k < |a| ==> a[k] !in first
    requires d in first
    ensures Strtok(a + [d] + rest, first, later) == [a] + Tokens(rest, later)
  {
    var s := a + [d] + rest;
    assert s == a + ([d] + rest);
    assert SkipLead(s, first) == s;
    TokLenPrefix(a, [d] + rest, first);
    assert s[..|a|] == a && s[|a| + 1..] == rest;
  }

  /** The first token ends at a delimiter of the first set; the later
      ones come from what follows that delimiter. */
  lemma StrtokFirst(a: string, rest: string, first: set<char>, later: set<char>)
    requires a != [] && forall k :: 0 <= k < |a| ==> a[k] !in first
    requires rest != [] && rest[0] in first
    ensures Strtok(a + rest, first, later) == [a] + Tokens(rest[1..], later)
  {
    assert a + rest == a + [rest[0]] + rest[1..];
    StrtokCons(a, rest[0], rest[1..], first, later);
  }

  /** A token followed by a delimiter, or by nothing. */
  lemma TokensFirst(a: string, rest: string, delims: set<char>)
    requires a != [] && forall k :: 0 <= k < |a| ==> a[k] !in delims
    requires rest == [] || rest[0] in delims
    ensures Tokens(a + rest, delims) == [a] + Tokens(rest, delims)
  {
    if rest == [] {
      assert a + rest == a;
      assert SkipLead(a, delims) == a;
      TokLenWhole(a, delims);
      assert a[..|a|] == a;
      assert NextTok(a, delims) == (a, []);
    } else {
      assert a + rest == a + [rest[0]] + rest[1..];
      TokensCons(a, rest[0], rest[1..], delims);
      assert [rest[0]] + rest[1..] == rest;
      TokensSkipDelim(rest[0], rest[1..], delims);
    }
  }

  /** A line with no delimiter of the first set is a single token. */
  lemma StrtokWhole(a: string, first: set<char>, later: set<char>)
    requires a != [] && forall k :: 0 <= k < |a| ==> a[k] !in first
    ensures Strtok(a, first, later) == [a]
  {
    assert SkipLead(a, first) == a;
    TokLenWhole(a, first);
    assert a[..|a|] == a;
  }

  // ---------------------------------------------------------------------------
  // Lines

  /** The lines of a text: the pieces before each newline, and a last
      piece without a newline when one is left. */
  function Lines(s: string): (ls: seq<string>)
    decreases |s|
  {
    if s == [] then []
    else
      var n := TokLen(s, {'\n'});
      [s[..n]] + (if n < |s| then Lines(s[n + 1..]) else [])
  }

  /** A line ended by a newline comes first, the rest of the text after it. */
  lemma LinesCons(a: string, rest: string)
    requires '\n' !in a
    ensures Lines(a + "\n" + rest) == [a] + Lines(rest)
  {
    var s := a + "\n" + rest;
    assert s == a + ("\n" + rest);
    TokLenPrefix(a, "\n" + rest, {'\n'});
    assert s[..|a|] == a && s[|a| + 1..] == rest;
  }

  /** A text made of the given lines, each ended by a newline. */
  function Join(ls: seq<string>): string
  {
    if ls == [] then [] else ls[0] + "\n" + Join(ls[1..])
  }

  /** Lines undoes Join for lines that hold no newline. */
  lemma {:induction false} LinesJoin(ls: seq<string>)
    requires forall k :: 0 <= k < |ls| ==> '\n' !in ls[k]
    ensures Lines(Join(ls)) == ls
  {
    if ls != [] {
      LinesCons(ls[0], Join(ls[1..]));
      LinesJoin(ls[1..]);
      assert ls == [ls[0]] + ls[1..];
    }
  }

  /** Join of one more line at the end. */
  lemma {:induction false} JoinSnoc(ls: seq<string>, l: string)
    ensures Join(ls + [l]) == Join(ls) + (l + "\n")
  {
    if ls == [] {
      assert ([l])[1..] == [];
      assert Join([l]) == l + "\n" + Join([]);
    } else {
      assert (ls + [l])[0] == ls[0];
      assert (ls + [l])[1..] == ls[1..] + [l];
      JoinSnoc(ls[1..], l);
      var h := ls[0] + "\n";
      assert h + (Join(ls[1..]) + (l + "\n")) == (h + Join(ls[1..])) + (l + "\n");
    }
  }

  /** Join of one more line in front. */
  lemma JoinCons(l: string, ls: seq<string>)
    ensures Join([l] + ls) == l + "\n" + Join(ls)
  {
    assert ([l] + ls)[0] == l && ([l] + ls)[1..] == ls;
  }

  // ---------------------------------------------------------------------------
  // Decimal integers: printf("%d") and atoi

  predicate IsDigit(c: char) { '0' <= c <= '9' }

  function DigitChar(d: nat): char
    requires d < 10
  {
    ('0' as int + d) as char
  }

  function DigitValue(c: char): nat
    requires IsDigit(c)
  {
    (c as int - '0' as int) as nat
  }

  /** Decimal digits of a natural number, most significant first. */
  function NatToString(n: nat): (s: string)
    ensures s != [] && forall k :: 0 <= k < |s| ==> IsDigit(s[k])
  {
    if n < 10 then [DigitChar(n)] else NatToString(n / 10) + [DigitChar(n % 10)]
  }

  /** printf("%d", n) */
  function IntToString(n: int): (s: string)
    ensures s != [] && (IsDigit(s[0]) || s[0] == '-')
    ensures forall k :: 0 < k < |s| ==> IsDigit(s[k])
  {
    if n < 0 then "-" + NatToString(-n) else NatToString(n)
  }

  /** Value of a string of digits. */
  function DigitsValue(s: string): nat
    requires forall k :: 0 <= k < |s| ==> IsDigit(s[k])
  {
    if s == [] then 0 else DigitsValue(s[..|s| - 1]) * 10 + DigitValue(s[|s| - 1])
  }

  /** Length of the run of digits at the start of `s`. */
  function DigitRun(s: string): (n: nat)
    ensures n <= |s| && forall k :: 0 <= k < n ==> IsDigit(s[k])
    ensures n < |s| ==> !IsDigit(s[n])
  {
    if s != [] && IsDigit(s[0]) then 1 + DigitRun(s[1..]) else 0
  }

  predicate IsSpace(c: char)
  {
    c == ' ' || c == '\t' || c == '\n' || c == '\r' || c == 11 as char || c == 12 as char
  }

  function SkipSpace(s: string): (t: string)
  {
    if s != [] && IsSpace(s[0]) then SkipSpace(s[1..]) else s
  }

  /** atoi: leading white space, an optional sign, then as many digits as follow. */
  function Atoi(s: string): int
  {
    var t := SkipSpace(s);
    if t != [] && t[0] == '-' then -(LeadingValue(t[1..]) as int)
    else if t != [] && t[0] == '+' then LeadingValue(t[1..])
    else LeadingValue(t)
  }

  /** Value of the run of digits at the start of `s` (0 when there is none). */
  function LeadingValue(s: string): nat
  {
    DigitsValue(s[..DigitRun(s)])
  }

  lemma {:induction false} DigitsOfNat(n: nat)
    ensures DigitsValue(NatToString(n)) == n
  {
    if n >= 10 {
      var s := NatToString(n);
      DigitsOfNat(n / 10);
      assert s[..|s| - 1] == NatToString(n / 10);
    }
  }

  lemma {:induction false} DigitRunPrefix(a: string, rest: string)
    requires forall k :: 0 <= k < |a| ==> IsDigit(a[k])
    requires rest == [] || !IsDigit(rest[0])
    ensures DigitRun(a + rest) == |a|
  {
    if a != [] {
      assert (a + rest)[1..] == a[1..] + rest;
      DigitRunPrefix(a[1..], rest);
    } else {
      assert a + rest == rest;
    }
  }

  /** atoi reads back what %d printed, whatever non-digit text follows. */
  lemma LeadingValueOfNat(n: nat, rest: string)
    requires rest == [] || !IsDigit(rest[0])
    ensures LeadingValue(NatToString(n) + rest) == n
  {
    var d := NatToString(n);
    DigitRunPrefix(d, rest);
    assert (d + rest)[..|d|] == d;
    DigitsOfNat(n);
  }

  lemma AtoiIntToString(n: int, rest: string)
    requires rest == [] || !IsDigit(rest[0])
    ensures Atoi(IntToString(n) + rest) == n
  {
    var s := IntToString(n) + rest;
    assert !IsSpace(s[0]);
    assert SkipSpace(s) == s;
    if n < 0 {
      assert s[1..] == NatToString(-n) + rest;
      LeadingValueOfNat(-n, rest);
    } else {
      LeadingValueOfNat(n, rest);
    }
  }
}
