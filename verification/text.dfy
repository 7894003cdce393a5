/** The handful of Python string operations the validators rely on:
    `str.strip()`, `str.split(sep)`, `str.split()`, `int(str)` and
    list indexing with negative indices. Characters are code points;
    digits are the ASCII digits (other Unicode decimal digits are not
    modelled). */
module Text {
  import opened Wrappers

  /** The characters `str.isspace()` accepts, which `str.strip()` and
      `str.split()` treat as white space: the ASCII controls 9-13 and
      0x1C-0x1F, the space, NEL, and the Unicode space separators and
      line/paragraph separators. */
  predicate IsSpace(c: char)
  {
    var n := c as int;
    n == 0x20 || (9 <= n <= 13) || (0x1C <= n <= 0x1F) || n == 0x85 || n == 0xA0
    || n == 0x1680 || (0x2000 <= n <= 0x200A) || n == 0x2028 || n == 0x2029
    || n == 0x202F || n == 0x205F || n == 0x3000
  }

  predicate IsDigit(c: char)
  {
    '0' <= c <= '9'
  }

  predicate AllDigits(s: string)
  {
    forall i :: 0 <= i < |s| ==> IsDigit(s[i])
  }

  predicate NoDigits(s: string)
  {
    forall i :: 0 <= i < |s| ==> !IsDigit(s[i])
  }

  /** Drops leading white space. */
  function TrimStart(s: string): (r: string)
    ensures |r| <= |s|
    ensures |r| > 0 ==> !IsSpace(r[0])
  {
    if |s| > 0 && IsSpace(s[0]) then TrimStart(s[1..]) else s
  }

  /** `TrimStart` drops a prefix of white space and nothing else. */
  lemma {:induction false} TrimStartSpec(s: string)
    ensures TrimStart(s) == s[|s| - |TrimStart(s)|..]
    ensures forall i :: 0 <= i < |s| - |TrimStart(s)| ==> IsSpace(s[i])
  {
    if |s| > 0 && IsSpace(s[0]) {
      TrimStartSpec(s[1..]);
    }
  }

  /** Drops trailing white space. */
  function TrimEnd(s: string): (r: string)
    ensures |r| <= |s|
    ensures |r| > 0 ==> !IsSpace(r[|r| - 1])
  {
    if |s| > 0 && IsSpace(s[|s| - 1]) then TrimEnd(s[..|s| - 1]) else s
  }

  /** `TrimEnd` drops a suffix of white space and nothing else. */
  lemma {:induction false} TrimEndSpec(s: string)
    ensures TrimEnd(s) == s[..|TrimEnd(s)|]
    ensures forall i :: |TrimEnd(s)| <= i < |s| ==> IsSpace(s[i])
  {
    if |s| > 0 && IsSpace(s[|s| - 1]) {
      TrimEndSpec(s[..|s| - 1]);
    }
  }

  /** `s.strip()`. */
  function Strip(s: string): (r: string)
  {
    TrimEnd(TrimStart(s))
  }

  /** `Strip` removes only white space, at both ends, and leaves none there. */
  lemma StripSpec(s: string)
    ensures Strip(s) == [] <==> forall i :: 0 <= i < |s| ==> IsSpace(s[i])
  {
    var t := TrimStart(s);
    TrimStartSpec(s);
    TrimEndSpec(t);
    if |t| > 0 {
      assert s[|s| - |t|] == t[0];
    }
  }

  /** Joins pieces with a separator character: the inverse of `Split`. */
  function Join(parts: seq<string>, sep: char): string
  {
    if |parts| == 0 then []
    else if |parts| == 1 then parts[0]
    else parts[0] + [sep] + Join(parts[1..], sep)
  }

  /** `s.split(sep)` for a one-character separator: never empty,
      no piece contains the separator, and joining the pieces back gives `s`. */
  function Split(s: string, sep: char): (r: seq<string>)
    ensures |r| >= 1
    ensures forall k :: 0 <= k < |r| ==> sep !in r[k]
    ensures Join(r, sep) == s
  {
    if |s| == 0 then [[]]
    else
      var rest := Split(s[1..], sep);
      if s[0] == sep then [[]] + rest
      else
        assert Join(rest, sep) == s[1..];
        var r := [[s[0]] + rest[0]] + rest[1..];
        assert r[1..] == rest[1..];
        r
  }

  /** No piece holds the character `c`. */
  predicate NoneContain(parts: seq<string>, c: char)
  {
    forall k :: 0 <= k < |parts| ==> c !in parts[k]
  }

  lemma NoneContainConcat(a: seq<string>, b: seq<string>, c: char)
    requires NoneContain(a, c) && NoneContain(b, c)
    ensures NoneContain(a + b, c)
  {
    forall k | 0 <= k < |a + b| ensures c !in (a + b)[k] {
      if k >= |a| {
        assert (a + b)[k] == b[k - |a|];
      }
    }
  }

  /** Splitting what `Join` produced gives back the pieces. */
  lemma {:induction false} SplitJoin(parts: seq<string>, sep: char)
    requires |parts| >= 1
    requires forall k :: 0 <= k < |parts| ==> sep !in parts[k]
    ensures Split(Join(parts, sep), sep) == parts
  {
    if |parts| == 1 {
      SplitNoSep(parts[0], sep);
    } else {
      SplitJoin(parts[1..], sep);
      SplitPrefix(parts[0], Join(parts[1..], sep), sep);
    }
  }

  lemma {:induction false} SplitNoSep(s: string, sep: char)
    requires sep !in s
    ensures Split(s, sep) == [s]
  {
    if |s| > 0 {
      SplitNoSep(s[1..], sep);
    }
  }

  lemma {:induction false} SplitPrefix(p: string, t: string, sep: char)
    requires sep !in p
    ensures Split(p + [sep] + t, sep) == [p] + Split(t, sep)
  {
    if |p| == 0 {
      assert (p + [sep] + t)[1..] == t;
    } else {
      assert (p + [sep] + t)[1..] == p[1..] + [sep] + t;
      SplitPrefix(p[1..], t, sep);
      assert [p[0]] + p[1..] == p;
    }
  }

  /** A non-empty run of non-space characters. */
  predicate IsWord(w: string)
  {
    |w| > 0 && forall i :: 0 <= i < |w| ==> !IsSpace(w[i])
  }

  /** `s.split()`: the maximal runs of non-space characters, in order. */
  function Words(s: string): (r: seq<string>)
    decreases |s|
  {
    var t := TrimStart(s);
    if |t| == 0 then []
    else
      var n := WordLength(t);
      [t[..n]] + Words(t[n..])
  }

  /** Length of the run of non-space characters that starts `s`. */
  function WordLength(s: string): (n: nat)
    ensures n <= |s|
    ensures |s| > 0 && !IsSpace(s[0]) ==> n > 0
  {
    if |s| > 0 && !IsSpace(s[0]) then 1 + WordLength(s[1..]) else 0
  }

  function DigitValue(c: char): (d: nat)
    requires IsDigit(c)
    ensures d <= 9
  {
    c as int - '0' as int
  }

  function DigitChar(d: nat): (c: char)
    requires d <= 9
    ensures IsDigit(c) && DigitValue(c) == d
  {
    ('0' as int + d) as char
  }

  /** The value of a string of decimal digits, most significant first. */
  function DigitsValue(s: string): nat
    requires AllDigits(s)
  {
    if |s| == 0 then 0 else DigitsValue(s[..|s| - 1]) * 10 + DigitValue(s[|s| - 1])
  }

  /** The canonical decimal rendering of a natural number. */
  function Decimal(n: nat): (s: string)
    ensures |s| > 0 && AllDigits(s)
  {
    if n < 10 then [DigitChar(n)] else Decimal(n / 10) + [DigitChar(n % 10)]
  }

  lemma {:induction false} DecimalValue(n: nat)
    ensures DigitsValue(Decimal(n)) == n
  {
    if n >= 10 {
      DecimalValue(n / 10);
      var s := Decimal(n);
      assert s[..|s| - 1] == Decimal(n / 10);
    }
  }

  /** Unsigned decimal: at least one digit and nothing else. */
  function ParseNat(s: string): (r: Option<nat>)
    ensures r.Some? <==> |s| > 0 && AllDigits(s)
  {
    if |s| > 0 && AllDigits(s) then Some(DigitsValue(s)) else None
  }

  /** `int(s)` on ASCII input: surrounding white space, an optional sign,
      then one or more digits. */
  function ParseInt(s: string): (r: Option<int>)
  {
    ParseSigned(Strip(s))
  }

  /** An optional sign followed by one or more digits, nothing around them. */
  function ParseSigned(t: string): (r: Option<int>)
  {
    if |t| > 0 && (t[0] == '-' || t[0] == '+') then
      match ParseNat(t[1..])
      case Some(n) => Some(if t[0] == '-' then 0 - n as int else n as int)
      case None => None
    else
      match ParseNat(t)
      case Some(n) => Some(n)
      case None => None
  }

  /** The rendering `str(i)` of an integer. */
  function IntString(i: int): (s: string)
    ensures forall k :: 0 <= k < |s| ==> s[k] == '-' || IsDigit(s[k])
  {
    if i < 0 then "-" + Decimal(-i) else Decimal(i)
  }

  /** `int(str(i)) == i`, also with white space around the digits. */
  lemma IntStringRoundTrip(i: int, pad: string)
    requires forall k :: 0 <= k < |pad| ==> IsSpace(pad[k])
    ensures ParseInt(pad + IntString(i) + pad) == Some(i)
  {
    var s := IntString(i);
    if i < 0 {
      var d := Decimal(-i);
      assert s == ['-'] + d;
      assert IsDigit(d[|d| - 1]);
      StripPadded(pad, s);
      DecimalValue(-i);
      assert s[1..] == d;
    } else {
      var d := Decimal(i);
      assert IsDigit(d[0]) && IsDigit(d[|d| - 1]);
      StripPadded(pad, s);
      DecimalValue(i);
    }
    SignedRoundTrip(i);
  }

  lemma SignedRoundTrip(i: int)
    ensures ParseSigned(IntString(i)) == Some(i)
  {
    var s := IntString(i);
    if i < 0 {
      DecimalValue(-i);
      assert s[1..] == Decimal(-i);
      assert ParseNat(s[1..]) == Some(-i);
    } else {
      DecimalValue(i);
      assert IsDigit(s[0]);
      assert ParseNat(s) == Some(i);
    }
  }

  lemma StripPadded(pad: string, s: string)
    requires forall k :: 0 <= k < |pad| ==> IsSpace(pad[k])
    requires |s| > 0 && !IsSpace(s[0]) && !IsSpace(s[|s| - 1])
    ensures Strip(pad + s + pad) == s
  {
    TrimStartPadded(pad, s + pad);
    assert pad + s + pad == pad + (s + pad);
    TrimEndPadded(s, pad);
  }

  lemma {:induction false} TrimStartPadded(pad: string, s: string)
    requires forall k :: 0 <= k < |pad| ==> IsSpace(pad[k])
    requires |s| > 0 && !IsSpace(s[0])
    ensures TrimStart(pad + s) == s
  {
    if |pad| > 0 {
      assert (pad + s)[1..] == pad[1..] + s;
      TrimStartPadded(pad[1..], s);
    }
  }

  lemma {:induction false} TrimEndPadded(s: string, pad: string)
    requires forall k :: 0 <= k < |pad| ==> IsSpace(pad[k])
    requires |s| > 0 && !IsSpace(s[|s| - 1])
    ensures TrimEnd(s + pad) == s
  {
    if |pad| > 0 {
      assert (s + pad)[..|s + pad| - 1] == s + pad[..|pad| - 1];
      TrimEndPadded(s, pad[..|pad| - 1]);
    }
  }

  lemma IntStringHasNo(i: int, c: char)
    requires c != '-' && !IsDigit(c)
    ensures c !in IntString(i)
  {
    var s := IntString(i);
    forall k | 0 <= k < |s| ensures s[k] != c {
    }
  }

  lemma ParseIntString(i: int)
    ensures ParseInt(IntString(i)) == Some(i)
  {
    IntStringRoundTrip(i, []);
    assert [] + IntString(i) + [] == IntString(i);
  }

  /** `str(i)` is a single word. */
  lemma IntStringWord(i: int)
    ensures IsWord(IntString(i))
  {
    var s := IntString(i);
    assert |s| > 0;
    forall k | 0 <= k < |s| ensures !IsSpace(s[k]) {
    }
  }

  lemma {:induction false} WordLengthOf(w: string, x: string)
    requires IsWord(w) && (|x| == 0 || IsSpace(x[0]))
    ensures WordLength(w + x) == |w|
    decreases |w|
  {
    if |w| > 1 {
      assert (w + x)[1..] == w[1..] + x;
      WordLengthOf(w[1..], x);
    } else {
      assert (w + x)[1..] == x;
    }
  }

  lemma WordsSpace(x: string)
    ensures Words([' '] + x) == Words(x)
  {
    assert ([' '] + x)[1..] == x;
    assert TrimStart([' '] + x) == TrimStart(x);
  }

  /** A word followed by a space and more text splits off as the first word. */
  lemma WordsCons(w: string, x: string)
    requires IsWord(w)
    ensures Words(w + [' '] + x) == [w] + Words(x)
  {
    var s := w + [' '] + x;
    assert s == w + ([' '] + x);
    WordLengthOf(w, [' '] + x);
    assert TrimStart(s) == s;
    assert s[..|w|] == w;
    assert s[|w|..] == [' '] + x;
    WordsSpace(x);
  }

  lemma WordsWord(w: string)
    requires IsWord(w)
    ensures Words(w) == [w]
  {
    WordLengthOf(w, []);
    assert w + [] == w;
    assert TrimStart(w) == w;
    assert w[..|w|] == w;
  }

  /** `' '.join(ws).split() == ws` for words `ws`. */
  lemma WordsJoin(ws: seq<string>)
    requires forall k :: 0 <= k < |ws| ==> IsWord(ws[k])
    ensures Words(Join(ws, ' ')) == ws
  {
    AllWordsOf(ws);
    WordsJoinAll(ws);
  }

  /** Every piece is a word, stated one piece after the other. */
  predicate AllWords(ws: seq<string>)
  {
    |ws| == 0 || (IsWord(ws[0]) && AllWords(ws[1..]))
  }

  lemma {:induction false} AllWordsOf(ws: seq<string>)
    requires forall k :: 0 <= k < |ws| ==> IsWord(ws[k])
    ensures AllWords(ws)
  {
    if |ws| > 0 {
      assert forall k :: 0 <= k < |ws[1..]| ==> ws[1..][k] == ws[k + 1];
      AllWordsOf(ws[1..]);
    }
  }

  lemma {:induction false} WordsJoinAll(ws: seq<string>)
    requires AllWords(ws)
    ensures Words(Join(ws, ' ')) == ws
  {
    if |ws| == 1 {
      WordsWord(ws[0]);
    } else if |ws| > 1 {
      WordsJoinAll(ws[1..]);
      WordsCons(ws[0], Join(ws[1..], ' '));
      assert [ws[0]] + ws[1..] == ws;
    }
  }

  lemma {:induction false} JoinEnds(ws: seq<string>, sep: char)
    requires |ws| > 0 && forall k :: 0 <= k < |ws| ==> |ws[k]| > 0
    ensures |Join(ws, sep)| > 0
    ensures Join(ws, sep)[0] == ws[0][0]
    ensures Join(ws, sep)[|Join(ws, sep)| - 1] == ws[|ws| - 1][|ws[|ws| - 1]| - 1]
  {
    if |ws| > 1 {
      JoinEnds(ws[1..], sep);
    }
  }

  /** Words joined by spaces have no white space around them. */
  lemma StripJoinedWords(ws: seq<string>)
    requires |ws| > 0 && forall k :: 0 <= k < |ws| ==> IsWord(ws[k])
    ensures Strip(Join(ws, ' ')) == Join(ws, ' ')
  {
    JoinEnds(ws, ' ');
    var s := Join(ws, ' ');
    assert !IsSpace(s[0]) && !IsSpace(s[|s| - 1]);
    assert TrimStart(s) == s;
  }

  lemma {:induction false} JoinHasNo(ws: seq<string>, sep: char, c: char)
    requires c != sep && forall k :: 0 <= k < |ws| ==> c !in ws[k]
    ensures c !in Join(ws, sep)
  {
    if |ws| > 1 {
      JoinHasNo(ws[1..], sep, c);
    }
  }

  /** `[str(x) for x in xs]`. */
  function IntStrings(xs: seq<int>): (r: seq<string>)
    ensures |r| == |xs| && forall k :: 0 <= k < |xs| ==> r[k] == IntString(xs[k])
  {
    seq(|xs|, k requires 0 <= k < |xs| => IntString(xs[k]))
  }

  /** Reading back rendered integers gives them back. */
  lemma {:induction false} ParseIntStrings(xs: seq<int>)
    ensures ParseInts(IntStrings(xs)) == Some(xs)
  {
    if |xs| > 0 {
      ParseIntString(xs[0]);
      assert IntStrings(xs)[1..] == IntStrings(xs[1..]);
      ParseIntStrings(xs[1..]);
      assert [xs[0]] + xs[1..] == xs;
    }
  }

  /** `f` applied to every element, failing if it fails on any. */
  function MapAll<T, U>(xs: seq<T>, f: T -> Option<U>): (r: Option<seq<U>>)
    ensures r.Some? ==> |r.value| == |xs|
    ensures r.Some? ==> forall k :: 0 <= k < |xs| ==> f(xs[k]) == Some(r.value[k])
    ensures r.None? ==> exists k :: 0 <= k < |xs| && f(xs[k]).None?
  {
    if |xs| == 0 then Some([])
    else
      match f(xs[0])
      case None => None
      case Some(v) =>
        match MapAll(xs[1..], f)
        case None =>
          assert forall k :: 1 <= k < |xs| ==> xs[k] == xs[1..][k - 1];
          None
        case Some(vs) =>
          assert forall k :: 1 <= k < |xs| ==> xs[k] == xs[1..][k - 1];
          Some([v] + vs)
  }

  /** `int` applied to every piece, failing if any piece is not a number. */
  function ParseInts(parts: seq<string>): (r: Option<seq<int>>)
    ensures r.Some? ==> |r.value| == |parts|
    ensures r.Some? ==> forall k :: 0 <= k < |parts| ==> ParseInt(parts[k]) == Some(r.value[k])
    ensures r.None? ==> exists k :: 0 <= k < |parts| && ParseInt(parts[k]).None?
  {
    MapAll(parts, ParseInt)
  }

  /** Python's `s[i]`: negative indices count from the end; anything
      else outside the list raises `IndexError` (here `None`). */
  function PyIndex<T>(s: seq<T>, i: int): (r: Option<T>)
    ensures r.Some? <==> -|s| <= i < |s|
    ensures 0 <= i < |s| ==> r == Some(s[i])
    ensures -|s| <= i < 0 ==> r == Some(s[|s| + i])
  {
    if 0 <= i < |s| then Some(s[i])
    else if -|s| <= i < 0 then Some(s[|s| + i])
    else None
  }

  /** A bound of Python's slice `s[lo:hi]`: a negative bound counts from
      the end, and the result is clamped to the sequence. */
  function SliceBound(i: int, n: nat): (b: nat)
    ensures b <= n
    ensures 0 <= i <= n ==> b == i
    ensures i > n ==> b == n
    ensures i < 0 && i + n >= 0 ==> b == i + n
    ensures i + n < 0 ==> b == 0
  {
    if i < 0 then (if i + n < 0 then 0 else i + n)
    else if i > n then n
    else i
  }

  /** Python's `s[lo:hi]`: empty when the clamped bounds cross. */
  function PySlice<T>(s: seq<T>, lo: int, hi: int): (r: seq<T>)
    ensures |r| <= |s|
    ensures 0 <= lo <= hi <= |s| ==> r == s[lo..hi]
    ensures 0 <= hi <= lo ==> r == []
    ensures 0 <= lo <= |s| < hi ==> r == s[lo..]
  {
    var a := SliceBound(lo, |s|);
    var b := SliceBound(hi, |s|);
    if a <= b then s[a..b] else []
  }

  /** Why reading a description file stopped: the file ended (`next` raised
      `StopIteration`) or the line at `index` did not have the expected shape
      (`ValueError` from `int`, or `IndexError` from a missing field). */
  datatype ReadError = EndOfInput | BadLine(index: nat)

  function NextLine(lines: seq<string>, k: nat): (r: Result<string, ReadError>)
    ensures r.Success? <==> k < |lines|
    ensures r.Success? ==> r.value == lines[k]
  {
    if k < |lines| then Success(lines[k]) else Failure(EndOfInput)
  }

  /** `int(next(reader))` with the reader at line `k`. */
  function ReadInt(lines: seq<string>, k: nat): (r: Result<int, ReadError>)
    ensures r.Success? <==> k < |lines| && ParseInt(lines[k]).Some?
    ensures r.Success? ==> ParseInt(lines[k]) == Some(r.value)
  {
    if k >= |lines| then Failure(EndOfInput)
    else
      match ParseInt(lines[k])
      case Some(v) => Success(v)
      case None => Failure(BadLine(k))
  }

  /** The count a loop `for _ in range(count)` runs for. */
  function RangeCount(count: int): nat
  {
    if count < 0 then 0 else count
  }

  /** Lines `k` to `k + n - 1` all exist and all parse. */
  predicate ParsesAll<T>(lines: seq<string>, k: nat, n: nat, parse: string -> Option<T>)
  {
    k + n <= |lines| && forall i :: k <= i < k + n ==> parse(lines[i]).Some?
  }

  /** Reads `n` consecutive lines from line `k` on, each through `parse`,
      stopping at the first line that is missing or does not parse. */
  function ReadBlock<T>(lines: seq<string>, k: nat, n: nat, parse: string -> Option<T>): (r: Result<seq<T>, ReadError>)
    ensures r.Success? <==> n == 0 || ParsesAll(lines, k, n, parse)
    ensures r.Success? ==> |r.value| == n
    ensures r.Success? ==> forall i :: 0 <= i < n ==> k + i < |lines| && parse(lines[k + i]) == Some(r.value[i])
    decreases n
  {
    if n == 0 then Success([])
    else if k >= |lines| then Failure(EndOfInput)
    else
      match parse(lines[k])
      case None => Failure(BadLine(k))
      case Some(v) =>
        match ReadBlock(lines, k + 1, n - 1, parse)
        case Failure(e) => Failure(e)
        case Success(vs) => Success([v] + vs)
  }
}
