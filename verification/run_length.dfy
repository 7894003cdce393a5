/** Run-length move strings: a route's moves are written as tokens
    `\d+[><+-]` (a decimal repeat count and one glyph). The validators pick
    the tokens out with `re.findall` and replay each glyph `count` times. */
module RunLength {
  import opened Text
  import opened Grid

  datatype Token = Token(count: nat, dir: Dir)

  /** Length of the run of digits that starts `s`. */
  function LeadingDigits(s: string): (n: nat)
    ensures n <= |s|
    ensures AllDigits(s[..n])
    ensures n < |s| ==> !IsDigit(s[n])
  {
    if |s| > 0 && IsDigit(s[0]) then
      var n := 1 + LeadingDigits(s[1..]);
      assert s[..n] == [s[0]] + s[1..][..n - 1];
      n
    else 0
  }

  /** `re.findall(r'\d+[><+-]', s)`, each match read as a token. A match is
      a maximal digit run followed by a glyph; any other text, including a
      digit run not followed by a glyph, is skipped. */
  function Tokens(s: string): seq<Token>
    decreases |s|
  {
    if |s| == 0 then []
    else if !IsDigit(s[0]) then Tokens(s[1..])
    else
      var n := LeadingDigits(s);
      if n < |s| && IsDirChar(s[n]) then
        [Token(DigitsValue(s[..n]), DirOf(s[n]))] + Tokens(s[n + 1..])
      else
        Tokens(s[n..])
  }

  function Repeat(d: Dir, n: nat): (r: seq<Dir>)
    ensures |r| == n
    ensures forall i :: 0 <= i < n ==> r[i] == d
  {
    seq(n, _ => d)
  }

  /** The elementary moves a token list stands for, token by token. */
  function Expand(ts: seq<Token>): seq<Dir>
  {
    if |ts| == 0 then [] else Repeat(ts[0].dir, ts[0].count) + Expand(ts[1..])
  }

  /** Sum of the repeat counts. */
  function TotalCount(ts: seq<Token>): nat
  {
    if |ts| == 0 then 0 else ts[0].count + TotalCount(ts[1..])
  }

  /** The replayed move count is the sum of the written counts. */
  lemma {:induction false} ExpandLength(ts: seq<Token>)
    ensures |Expand(ts)| == TotalCount(ts)
  {
    if |ts| > 0 {
      ExpandLength(ts[1..]);
    }
  }

  /** Expansion works token by token and keeps their order. */
  lemma {:induction false} ExpandAppend(a: seq<Token>, b: seq<Token>)
    ensures Expand(a + b) == Expand(a) + Expand(b)
  {
    if |a| == 0 {
      assert a + b == b;
    } else {
      assert (a + b)[1..] == a[1..] + b;
      ExpandAppend(a[1..], b);
    }
  }

  /** One token is exactly `count` copies of its glyph. */
  lemma ExpandToken(t: Token)
    ensures |Expand([t])| == t.count
    ensures forall i :: 0 <= i < t.count ==> Expand([t])[i] == t.dir
  {
    assert Expand([t]) == Repeat(t.dir, t.count) + Expand([]);
  }

  /** The canonical text of a token list: each count in decimal, then its glyph. */
  function Encode(ts: seq<Token>): string
  {
    if |ts| == 0 then [] else Decimal(ts[0].count) + [CharOf(ts[0].dir)] + Encode(ts[1..])
  }

  lemma LeadingDigitsOfDecimal(n: nat, c: char, rest: string)
    requires !IsDigit(c)
    ensures LeadingDigits(Decimal(n) + [c] + rest) == |Decimal(n)|
  {
    var d := Decimal(n);
    LeadingDigitsRun(d, [c] + rest);
    assert d + [c] + rest == d + ([c] + rest);
  }

  lemma {:induction false} LeadingDigitsRun(d: string, rest: string)
    requires AllDigits(d)
    requires |rest| > 0 && !IsDigit(rest[0])
    ensures LeadingDigits(d + rest) == |d|
  {
    if |d| > 0 {
      assert (d + rest)[1..] == d[1..] + rest;
      LeadingDigitsRun(d[1..], rest);
    }
  }

  /** Reading back the canonical text gives the same tokens. */
  lemma {:induction false} TokensEncode(ts: seq<Token>)
    ensures Tokens(Encode(ts)) == ts
  {
    if |ts| > 0 {
      var d := Decimal(ts[0].count);
      var c := CharOf(ts[0].dir);
      var rest := Encode(ts[1..]);
      var s := Encode(ts);
      assert s == d + [c] + rest;
      LeadingDigitsOfDecimal(ts[0].count, c, rest);
      assert s[..|d|] == d;
      DecimalValue(ts[0].count);
      assert s[|d|] == c;
      assert s[|d| + 1..] == rest;
      TokensEncode(ts[1..]);
    }
  }

  /** Text without digits contributes no tokens wherever it stands in front. */
  lemma {:induction false} TokensSkipNoise(noise: string, s: string)
    requires NoDigits(noise)
    ensures Tokens(noise + s) == Tokens(s)
  {
    if |noise| > 0 {
      assert (noise + s)[0] == noise[0];
      assert (noise + s)[1..] == noise[1..] + s;
      TokensSkipNoise(noise[1..], s);
    } else {
      assert noise + s == s;
    }
  }

  /** Text without digits holds no tokens at all. */
  lemma TokensNoDigits(s: string)
    requires NoDigits(s)
    ensures Tokens(s) == []
  {
    TokensSkipNoise(s, []);
    assert s + [] == s;
  }

  /** A digit run that is not followed by a glyph is dropped with it. */
  lemma DanglingCountSkipped(digits: string, c: char, s: string)
    requires |digits| > 0 && AllDigits(digits)
    requires !IsDigit(c) && !IsDirChar(c)
    ensures Tokens(digits + [c] + s) == Tokens(s)
  {
    var full := digits + [c] + s;
    LeadingDigitsRun(digits, [c] + s);
    assert full == digits + ([c] + s);
    assert full[|digits|..] == [c] + s;
    assert ([c] + s)[1..] == s;
  }
}
