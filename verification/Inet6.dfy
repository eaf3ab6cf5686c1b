/** The text form of IPv6 addresses (libevent/evutil.c:1606-1674 and 1701-1786): section 2.2 of
    RFC 4291, with the gap of sections 4.2.2 and 4.2.3 of RFC 5952. */
module Inet6 {

  type Byte = x: int | 0 <= x < 256

  type Word = x: int | 0 <= x < 65536

  datatype Option<T> = None | Some(value: T)

  function Word16(high: Byte, low: Byte): Word {
    high as int * 256 + low as int
  }

  function WordsOf(a: seq<Byte>): (ws: seq<Word>)
    requires |a| == 16
    ensures |ws| == 8 && forall i :: 0 <= i < 8 ==> ws[i] == Word16(a[2 * i], a[2 * i + 1])
  {
    seq(8, i requires 0 <= i < 8 => Word16(a[2 * i], a[2 * i + 1]))
  }

  function ByteAt(ws: seq<Word>, k: nat): Byte
    requires k / 2 < |ws|
  {
    if k % 2 == 0 then ws[k / 2] / 256 else ws[k / 2] % 256
  }

  function BytesOf(ws: seq<Word>): (a: seq<Byte>)
    requires |ws| == 8
    ensures |a| == 16 && forall k :: 0 <= k < 16 ==> a[k] == ByteAt(ws, k)
  {
    seq(16, k requires 0 <= k < 16 => ByteAt(ws, k))
  }

  lemma {:induction false} Word16Back(high: Byte, low: Byte)
    ensures Word16(high, low) / 256 == high && Word16(high, low) % 256 == low
  {
  }

  lemma {:induction false} BytesOfWords(a: seq<Byte>)
    requires |a| == 16
    ensures BytesOf(WordsOf(a)) == a
  {
    forall k | 0 <= k < 16 ensures BytesOf(WordsOf(a))[k] == a[k] {
      var i := k / 2;
      assert k == if k % 2 == 0 then 2 * i else 2 * i + 1;
      assert WordsOf(a)[i] == Word16(a[2 * i], a[2 * i + 1]);
      Word16Back(a[2 * i], a[2 * i + 1]);
    }
  }

  // ---------------------------------------------------------------- numbers

  function Digit(d: nat): char
    requires d < 16
  {
    if d < 10 then (d + '0' as int) as char else (d - 10 + 'a' as int) as char
  }

  predicate IsDigit(c: char) {
    '0' <= c <= '9'
  }

  predicate IsXDigit(c: char) {
    IsDigit(c) || 'a' <= c <= 'f' || 'A' <= c <= 'F'
  }

  function Value(c: char): nat
    requires IsXDigit(c)
  {
    if IsDigit(c) then c as int - '0' as int
    else if 'a' <= c then c as int - 'a' as int + 10
    else c as int - 'A' as int + 10
  }

  predicate IsNumeral(c: char, base: Base) {
    IsXDigit(c) && Value(c) < base.Size()
  }

  datatype Base = Ten | Sixteen {
    function Size(): nat {
      if Ten? then 10 else 16
    }

    function Over(n: nat): nat {
      if Ten? then n / 10 else n / 16
    }

    function Rest(n: nat): nat {
      if Ten? then n % 10 else n % 16
    }

    function Times(n: nat): nat {
      if Ten? then n * 10 else n * 16
    }
  }

  /** %d and %x. */
  function Numeral(n: nat, base: Base): (t: string)
    ensures |t| > 0 && forall i :: 0 <= i < |t| ==> IsNumeral(t[i], base)
    ensures n > 0 ==> t[0] != '0'
    decreases n
  {
    if n < base.Size() then [Digit(n)] else Numeral(base.Over(n), base) + [Digit(base.Rest(n))]
  }

  function Hex(w: Word): string {
    Numeral(w, Sixteen)
  }

  function Dec(b: Byte): string {
    Numeral(b, Ten)
  }

  /** The character at `i`, and the null character behind the end. */
  function CharAt(s: string, i: nat): char {
    if i < |s| then s[i] else '\0'
  }

  /** The end of the digits from `i` on. */
  function NumeralEnd(s: string, i: nat, base: Base): (j: nat)
    ensures i <= j && (i <= |s| ==> j <= |s|)
    decreases |s| - i
  {
    if i < |s| && IsNumeral(s[i], base) then NumeralEnd(s, i + 1, base) else i
  }

  /** The number that the digits from `i` to `j` stand for. */
  function Number(s: string, i: nat, j: nat, base: Base): nat
    requires j <= |s| && forall k :: i <= k < j ==> IsNumeral(s[k], base)
    decreases j
  {
    if j <= i then 0
    else
      assert IsNumeral(s[j - 1], base);
      base.Times(Number(s, i, j - 1, base)) + Value(s[j - 1])
  }

  lemma {:induction false} NumeralEndDigits(s: string, i: nat, base: Base)
    ensures forall k :: i <= k < NumeralEnd(s, i, base) ==> k < |s| && IsNumeral(s[k], base)
    decreases |s| - i
  {
    if i < |s| && IsNumeral(s[i], base) {
      NumeralEndDigits(s, i + 1, base);
      forall k | i <= k < NumeralEnd(s, i, base) ensures k < |s| && IsNumeral(s[k], base) {
        assert k == i || i + 1 <= k < NumeralEnd(s, i + 1, base);
      }
    } else {
      assert NumeralEnd(s, i, base) == i;
    }
  }

  lemma {:induction false} NumeralEndIs(s: string, i: nat, j: nat, base: Base)
    requires i <= j <= |s| && (forall k :: i <= k < j ==> IsNumeral(s[k], base))
    requires j < |s| ==> !IsNumeral(s[j], base)
    ensures NumeralEnd(s, i, base) == j
    decreases j - i
  {
    if i < j { NumeralEndIs(s, i + 1, j, base); }
  }

  // ---------------------------------------------------------------- text at a place

  ghost predicate CharsAgree(s: string, i: nat, t: string, k: nat) {
    k < |t| && i + k < |s| && s[i + k] == t[k]
  }

  ghost predicate At(s: string, i: nat, t: string) {
    i + |t| <= |s| && forall k {:trigger CharsAgree(s, i, t, k)} :: 0 <= k < |t| ==> CharsAgree(s, i, t, k)
  }

  lemma {:induction false} AtHas(s: string, i: nat, t: string, k: nat)
    requires At(s, i, t) && k < |t|
    ensures s[i + k] == t[k]
  {
    assert CharsAgree(s, i, t, k);
  }

  lemma {:induction false} AtSplit(s: string, i: nat, t: string, u: string)
    requires At(s, i, t + u)
    ensures At(s, i, t) && At(s, i + |t|, u)
  {
    forall k | 0 <= k < |t| ensures CharsAgree(s, i, t, k) { assert CharsAgree(s, i, t + u, k); }
    var j := i + |t|;
    forall k | 0 <= k < |u| ensures CharsAgree(s, j, u, k) { assert CharsAgree(s, i, t + u, |t| + k); }
  }

  lemma {:induction false} DigitsAt(s: string, i: nat, n: nat, base: Base)
    requires At(s, i, Numeral(n, base))
    ensures forall k :: i <= k < i + |Numeral(n, base)| ==> IsNumeral(s[k], base)
  {
    var t := Numeral(n, base);
    forall k | i <= k < i + |t| ensures IsNumeral(s[k], base) { AtHas(s, i, t, k - i); }
  }

  lemma {:induction false} DigitBack(d: nat)
    requires d < 16
    ensures IsXDigit(Digit(d)) && Value(Digit(d)) == d
  {
  }

  lemma {:induction false} NumberBack(s: string, i: nat, n: nat, base: Base)
    requires At(s, i, Numeral(n, base))
    ensures forall k :: i <= k < i + |Numeral(n, base)| ==> IsNumeral(s[k], base)
    ensures Number(s, i, i + |Numeral(n, base)|, base) == n
  {
    var t := Numeral(n, base);
    DigitsAt(s, i, n, base);
    AtHas(s, i, t, |t| - 1);
    if n >= base.Size() {
      DigitBack(base.Rest(n));
      AtSplit(s, i, Numeral(base.Over(n), base), [Digit(base.Rest(n))]);
      NumberBack(s, i, base.Over(n), base);
    } else {
      DigitBack(n);
      assert |t| == 1 && IsNumeral(s[i], base);
      assert Number(s, i, i, base) == 0;
    }
  }

  lemma {:induction false} NumeralLength(n: nat, base: Base)
    ensures |Numeral(n, base)| == if n < base.Size() then 1 else |Numeral(base.Over(n), base)| + 1
  {
  }

  lemma {:induction false} HexLength(w: Word)
    ensures 1 <= |Hex(w)| <= 4
  {
    NumeralLength(w, Sixteen);
    NumeralLength(w / 16, Sixteen);
    NumeralLength(w / 16 / 16, Sixteen);
    NumeralLength(w / 16 / 16 / 16, Sixteen);
  }

  lemma {:induction false} DecLength(b: Byte)
    ensures 1 <= |Dec(b)| <= 3
  {
    NumeralLength(b, Ten);
    NumeralLength(b / 10, Ten);
    NumeralLength(b / 10 / 10, Ten);
  }

  // ---------------------------------------------------------------- strtol and sscanf

  /** strtol in base 16 at a hexadecimal digit: the number and where it ends.  A leading 0x counts
      when a digit follows it. */
  function Strtol(s: string, i: nat): (r: (nat, nat))
    requires i < |s| && IsXDigit(s[i])
    ensures i < r.1 <= |s|
  {
    var from := if s[i] == '0' && (CharAt(s, i + 1) == 'x' || CharAt(s, i + 1) == 'X') &&
      IsXDigit(CharAt(s, i + 2)) then i + 2 else i;
    var to := NumeralEnd(s, from, Sixteen);
    NumeralEndDigits(s, from, Sixteen);
    (Number(s, from, to, Sixteen), to)
  }

  lemma {:induction false} StrtolBack(s: string, i: nat, w: Word)
    requires At(s, i, Hex(w)) && (i + |Hex(w)| < |s| ==> s[i + |Hex(w)|] == ':')
    ensures i < |s| && IsXDigit(s[i]) && Strtol(s, i) == (w, i + |Hex(w)|) && |Hex(w)| <= 4
  {
    var t := Hex(w);
    var j := i + |t|;
    NumberBack(s, i, w, Sixteen);
    NumeralEndIs(s, i, j, Sixteen);
    HexLength(w);
    AtHas(s, i, t, 0);
    if w > 0 {
      assert s[i] != '0';
    } else {
      assert CharAt(s, i + 1) == ':' || CharAt(s, i + 1) == '\0';
    }
  }

  predicate IsSpace(c: char) {
    c == ' ' || 9 as char <= c <= 13 as char
  }

  function SkipSpace(s: string, i: nat): (j: nat)
    ensures i <= j && (i <= |s| ==> j <= |s|)
    decreases |s| - i
  {
    if i < |s| && IsSpace(s[i]) then SkipSpace(s, i + 1) else i
  }

  /** %d: spaces, a sign, digits; the number and where it ends. */
  function ScanInt(s: string, i: nat): (r: Option<(int, nat)>)
    requires i <= |s|
    ensures r.Some? ==> i < r.value.1 <= |s|
  {
    var j := SkipSpace(s, i);
    var sign := CharAt(s, j) == '-' || CharAt(s, j) == '+';
    var from := if sign then j + 1 else j;
    var to := NumeralEnd(s, from, Ten);
    NumeralEndDigits(s, from, Ten);
    if to == from then None
    else
      var v: int := Number(s, from, to, Ten);
      Some((if CharAt(s, j) == '-' then -v else v, to))
  }

  /** %d followed by a dot. */
  function ScanDotted(s: string, i: nat): (r: Option<(int, nat)>)
    requires i <= |s|
    ensures r.Some? ==> i < r.value.1 <= |s|
  {
    var n := ScanInt(s, i);
    if n.Some? && CharAt(s, n.value.1) == '.' then Some((n.value.0, n.value.1 + 1)) else None
  }

  /** sscanf with "%d.%d.%d.%d%c" that has to find four numbers and nothing after them. */
  function ScanQuad(s: string, i: nat): (r: Option<seq<int>>)
    requires i <= |s|
    ensures r.Some? ==> |r.value| == 4
  {
    var a := ScanDotted(s, i);
    if a.None? then None else
    var b := ScanDotted(s, a.value.1);
    if b.None? then None else
    var c := ScanDotted(s, b.value.1);
    if c.None? then None else
    var d := ScanInt(s, c.value.1);
    if d.None? || d.value.1 < |s| then None else Some([a.value.0, b.value.0, c.value.0, d.value.0])
  }

  function Quad(a: Byte, b: Byte, c: Byte, d: Byte): string {
    Dec(a) + "." + (Dec(b) + "." + (Dec(c) + "." + Dec(d)))
  }

  lemma {:induction false} ScanIntBack(s: string, i: nat, b: Byte)
    requires At(s, i, Dec(b)) && (i + |Dec(b)| < |s| ==> s[i + |Dec(b)|] == '.')
    ensures ScanInt(s, i) == Some((b, i + |Dec(b)|)) && IsDigit(s[i])
  {
    NumberBack(s, i, b, Ten);
    NumeralEndIs(s, i, i + |Dec(b)|, Ten);
  }

  lemma {:induction false} ScanDottedBack(s: string, i: nat, b: Byte, rest: string)
    requires At(s, i, Dec(b) + "." + rest)
    ensures ScanDotted(s, i) == Some((b, i + |Dec(b)| + 1)) && At(s, i + |Dec(b)| + 1, rest)
    ensures forall k :: i <= k < i + |Dec(b)| ==> IsDigit(s[k])
    ensures s[i + |Dec(b)|] == '.'
  {
    AtSplit(s, i, Dec(b) + ".", rest);
    AtSplit(s, i, Dec(b), ".");
    AtHas(s, i + |Dec(b)|, ".", 0);
    ScanIntBack(s, i, b);
    NumberBack(s, i, b, Ten);
  }

  /** Scanning undoes printing of a dotted quad. */
  lemma {:induction false} ScanQuadBack(s: string, i: nat, a: Byte, b: Byte, c: Byte, d: Byte)
    requires At(s, i, Quad(a, b, c, d)) && |s| == i + |Quad(a, b, c, d)|
    ensures ScanQuad(s, i) == Some([a, b, c, d])
    ensures (forall k :: i <= k < i + |Dec(a)| ==> IsDigit(s[k])) && s[i + |Dec(a)|] == '.'
  {
    var i1 := i + |Dec(a)| + 1;
    ScanDottedBack(s, i, a, Dec(b) + "." + (Dec(c) + "." + Dec(d)));
    var i2 := i1 + |Dec(b)| + 1;
    ScanDottedBack(s, i1, b, Dec(c) + "." + Dec(d));
    var i3 := i2 + |Dec(c)| + 1;
    ScanDottedBack(s, i2, c, Dec(d));
    ScanIntBack(s, i3, d);
  }

  // ---------------------------------------------------------------- the gap

  /** The zero words from `i` on. */
  function ZerosAt(ws: seq<Word>, i: nat): (n: nat)
    ensures i <= |ws| ==> i + n <= |ws|
    ensures i <= |ws| ==> (forall k :: i <= k < i + n ==> ws[k] == 0) && (i + n < |ws| ==> ws[i + n] != 0)
    decreases |ws| - i
  {
    if i < |ws| && ws[i] == 0 then 1 + ZerosAt(ws, i + 1) else 0
  }

  /** The first place before `i` from which the most zero words follow. */
  function Best(ws: seq<Word>, i: nat): (p: nat)
    ensures i > 0 ==> p < i
    ensures forall q :: 0 <= q < i ==> ZerosAt(ws, q) <= ZerosAt(ws, p) && (q < p ==> ZerosAt(ws, q) < ZerosAt(ws, p))
  {
    if i == 0 then 0
    else
      var p := Best(ws, i - 1);
      if i > 1 && ZerosAt(ws, i - 1) <= ZerosAt(ws, p) then p else i - 1
  }

  /** Where the gap is, or -1. */
  function GapPos(ws: seq<Word>): int {
    if ZerosAt(ws, Best(ws, |ws|)) >= 2 then Best(ws, |ws|) else -1
  }

  /** `n` zero words from `p` on. */
  ghost predicate IsRun(ws: seq<Word>, p: nat, n: nat) {
    p + n <= |ws| && forall k :: p <= k < p + n ==> ws[k] == 0
  }

  lemma {:induction false} RunAtMost(ws: seq<Word>, p: nat, n: nat)
    requires IsRun(ws, p, n)
    ensures n <= ZerosAt(ws, p)
    decreases n
  {
    if n > 0 { RunAtMost(ws, p + 1, n - 1); }
  }

  /** The gap is the longest run of zero words, and the first of the longest, and it has two words
      at least; there is none when there is no such run. */
  lemma {:induction false} GapIsFirstLongest(ws: seq<Word>, q: nat, m: nat)
    requires IsRun(ws, q, m) && q < |ws|
    ensures GapPos(ws) == -1 ==> m <= 1
    ensures GapPos(ws) >= 0 ==>
              var p, n := GapPos(ws), ZerosAt(ws, GapPos(ws));
              IsRun(ws, p, n) && n >= 2 && m <= n && (m == n ==> p <= q)
  {
    RunAtMost(ws, q, m);
    assert ZerosAt(ws, q) <= ZerosAt(ws, Best(ws, |ws|));
  }

  // ---------------------------------------------------------------- printing

  /** Words with a colon after each. */
  function Led(ws: seq<Word>): string {
    if ws == [] then "" else Hex(ws[0]) + ":" + Led(ws[1..])
  }

  /** Words with colons between them. */
  function Joined(ws: seq<Word>): string {
    if ws == [] then "" else if |ws| == 1 then Hex(ws[0]) else Hex(ws[0]) + ":" + Joined(ws[1..])
  }

  /** The words with a gap of `n` words at `p`. */
  function WithGap(ws: seq<Word>, p: nat, n: nat): string
    requires p + n <= |ws|
  {
    Led(ws[..p]) + Colons(p) + Joined(ws[p + n..])
  }

  predicate HoldsIpv4(ws: seq<Word>)
    requires |ws| == 8
  {
    ws[0] == 0 && ws[1] == 0 && ws[2] == 0 && ws[3] == 0 && ws[4] == 0 &&
    ((ws[5] == 0 && ws[6] != 0 && ws[7] != 0) || ws[5] == 0xffff)
  }

  /** The word between the gap and the IPv4 address, if it is shown. */
  function Mid(ws: seq<Word>): (mid: seq<Word>)
    requires |ws| == 8
    ensures |mid| <= 1
  {
    if ws[5] == 0 then [] else [ws[5]]
  }

  /** What the address looks like. */
  function Text(a: seq<Byte>): string
    requires |a| == 16
  {
    var ws := WordsOf(a);
    if HoldsIpv4(ws) then
      Lead(Mid(ws)) + Quad(a[12], a[13], a[14], a[15])
    else if GapPos(ws) >= 0 then WithGap(ws, GapPos(ws), ZerosAt(ws, GapPos(ws)))
    else Joined(ws)
  }

  // ---------------------------------------------------------------- parsing

  /** The words and the gap from `src` to `eow`, when those in `ws` and the gap at `gap` have been
      read already (libevent/evutil.c:1735-1764). */
  function ParseWords(s: string, src: nat, eow: nat, gap: int, ws: seq<Word>): (r: Option<(int, seq<Word>)>)
    requires eow <= |s| && -1 <= gap <= |ws|
    ensures r.Some? ==> -1 <= r.value.0 <= |r.value.1|
    decreases |s| + 1 - src
  {
    if src >= eow then Some((gap, ws))
    else if |ws| > 7 then None
    else if IsXDigit(s[src]) then
      var r := Strtol(s, src);
      if r.1 > src + 4 || r.0 > 65536 then None
      else if CharAt(s, r.1) != ':' && r.1 != eow then None
      else ParseWords(s, r.1 + 1, eow, gap, ws + [r.0 % 65536])
    else if s[src] == ':' && |ws| > 0 && gap == -1 then ParseWords(s, src + 1, eow, |ws|, ws)
    else if s[src] == ':' && |ws| == 0 && CharAt(s, src + 1) == ':' && gap == -1 then
      ParseWords(s, src + 2, eow, |ws|, ws)
    else None
  }

  function Zeros(n: nat): seq<Word> {
    seq(n, i => 0)
  }

  /** The eight words from those before the dotted quad, the gap, and the quad
      (libevent/evutil.c:1766-1780). */
  function Assembled(gap: int, ws: seq<Word>, tail: seq<Word>): (r: Option<seq<Word>>)
    requires -1 <= gap <= |ws|
    ensures r.Some? ==> |r.value| == 8
  {
    var count := |ws| + |tail|;
    if count > 8 || (count == 8 && gap != -1) || (count < 8 && gap == -1) then None
    else if gap >= 0 then Some(ws[..gap] + Zeros(8 - count) + ws[gap..] + tail)
    else Some(ws + tail)
  }

  function FirstDot(s: string, i: nat): (d: nat)
    requires i <= |s|
    ensures i <= d <= |s|
    ensures (d < |s| ==> s[d] == '.') && forall k :: i <= k < d ==> s[k] != '.'
    decreases |s| - i
  {
    if i < |s| && s[i] != '.' then FirstDot(s, i + 1) else i
  }

  /** Back over the digits before `i`. */
  function DigitsBack(s: string, i: nat): (j: nat)
    requires i <= |s|
    ensures j <= i
  {
    if i > 0 && IsDigit(s[i - 1]) then DigitsBack(s, i - 1) else i
  }

  predicate AreBytes(q: seq<int>) {
    forall i :: 0 <= i < |q| ==> 0 <= q[i] <= 255
  }

  /** evutil_inet_pton for AF_INET6 on values. */
  function Parse(s: string): Option<seq<Byte>> {
    var dot := FirstDot(s, 0);
    if dot == 0 && s != "" then None
    else if dot == |s| then ParseBefore(s, |s|, [])
    else
      var eow := DigitsBack(s, dot);
      var q := ScanQuad(s, eow);
      if q.None? || !AreBytes(q.value) then None
      else ParseBefore(s, eow, [q.value[0] * 256 + q.value[1], q.value[2] * 256 + q.value[3]])
  }

  function ParseBefore(s: string, eow: nat, tail: seq<Word>): Option<seq<Byte>>
    requires eow <= |s|
  {
    var r := ParseWords(s, 0, eow, -1, []);
    if r.None? then None
    else
      var ws := Assembled(r.value.0, r.value.1, tail);
      if ws.None? then None else Some(BytesOf(ws.value))
  }

  // ---------------------------------------------------------------- parsing undoes printing

  lemma {:induction false} AtWhole(t: string, u: string)
    ensures At(t + u, 0, t) && At(t + u, |t|, u)
  {
    forall k | 0 <= k < |t| ensures CharsAgree(t + u, 0, t, k) {}
    forall k | 0 <= k < |u| ensures CharsAgree(t + u, |t|, u, k) {}
  }

  lemma {:induction false} Regroup(acc: seq<Word>, ws: seq<Word>)
    requires ws != []
    ensures acc + [ws[0]] + ws[1..] == acc + ws
  {
  }

  lemma {:induction false} AtThree(s: string, src: nat, t: string, u: string)
    requires At(s, src, t + ":" + u)
    ensures At(s, src, t) && src + |t| < |s| && s[src + |t|] == ':' && At(s, src + |t| + 1, u)
  {
    AtSplit(s, src, t + ":", u);
    AtSplit(s, src, t, ":");
    AtHas(s, src + |t|, ":", 0);
  }

  /** Words with a colon after each stand at `src`, and end at `end`; the last may end the text
      instead. */
  ghost predicate Stand(s: string, src: nat, ws: seq<Word>, end: nat)
    decreases |ws|
  {
    if ws == [] then src == end
    else
      src < |s| && IsXDigit(s[src]) &&
      var r := Strtol(s, src);
      r.0 == ws[0] && r.1 <= src + 4 && (if r.1 < |s| then s[r.1] == ':' else |ws| == 1) &&
      Stand(s, r.1 + 1, ws[1..], end)
  }

  lemma {:induction false} LedStands(s: string, src: nat, ws: seq<Word>)
    requires At(s, src, Led(ws))
    ensures Stand(s, src, ws, src + |Led(ws)|)
    decreases |ws|
  {
    if ws != [] {
      AtThree(s, src, Hex(ws[0]), Led(ws[1..]));
      StrtolBack(s, src, ws[0]);
      LedStands(s, src + |Hex(ws[0])| + 1, ws[1..]);
    }
  }

  /** Where reading goes on behind words that end the text. */
  function EndOf(s: string, ws: seq<Word>): nat {
    if ws == [] then |s| else |s| + 1
  }

  lemma {:induction false} JoinedStands(s: string, src: nat, ws: seq<Word>)
    requires At(s, src, Joined(ws)) && src + |Joined(ws)| == |s|
    ensures Stand(s, src, ws, EndOf(s, ws))
    decreases |ws|
  {
    if |ws| > 1 {
      AtThree(s, src, Hex(ws[0]), Joined(ws[1..]));
      StrtolBack(s, src, ws[0]);
      JoinedStands(s, src + |Hex(ws[0])| + 1, ws[1..]);
    } else if |ws| == 1 {
      StrtolBack(s, src, ws[0]);
      assert ws[1..] == [];
    }
  }

  lemma {:induction false} StandOrder(s: string, src: nat, ws: seq<Word>, end: nat)
    requires Stand(s, src, ws, end)
    ensures src <= end
    decreases |ws|
  {
    hide Strtol;
    if ws != [] { StandOrder(s, Strtol(s, src).1 + 1, ws[1..], end); }
  }

  /** They are read. */
  lemma {:induction false} StandBack(s: string, src: nat, eow: nat, gap: int, acc: seq<Word>, ws: seq<Word>, end: nat)
    requires Stand(s, src, ws, end) && eow <= |s| && (end <= eow || (eow == |s| && end == |s| + 1))
    requires |acc| + |ws| <= 8 && -1 <= gap <= |acc|
    ensures ParseWords(s, src, eow, gap, acc) == ParseWords(s, end, eow, gap, acc + ws)
    decreases |ws|
  {
    hide Strtol;
    if ws == [] {
      assert acc + ws == acc;
    } else {
      var next := Strtol(s, src).1 + 1;
      StandOrder(s, next, ws[1..], end);
      StandBack(s, next, eow, gap, acc + [ws[0]], ws[1..], end);
      Regroup(acc, ws);
    }
  }

  lemma {:induction false} LedBack(s: string, src: nat, eow: nat, gap: int, acc: seq<Word>, ws: seq<Word>)
    requires At(s, src, Led(ws)) && src + |Led(ws)| <= eow <= |s|
    requires |acc| + |ws| <= 8 && -1 <= gap <= |acc|
    ensures ParseWords(s, src, eow, gap, acc) == ParseWords(s, src + |Led(ws)|, eow, gap, acc + ws)
  {
    LedStands(s, src, ws);
    StandBack(s, src, eow, gap, acc, ws, src + |Led(ws)|);
  }

  /** Words with colons between them are read back to the end. */
  lemma {:induction false} JoinedBack(s: string, src: nat, gap: int, acc: seq<Word>, ws: seq<Word>)
    requires At(s, src, Joined(ws)) && src + |Joined(ws)| == |s|
    requires |acc| + |ws| <= 8 && -1 <= gap <= |acc|
    ensures ParseWords(s, src, |s|, gap, acc) == Some((gap, acc + ws))
  {
    JoinedStands(s, src, ws);
    StandBack(s, src, |s|, gap, acc, ws, EndOf(s, ws));
  }

  ghost predicate NoDot(t: string) {
    forall k :: 0 <= k < |t| ==> t[k] != '.'
  }

  lemma {:induction false} LedHasNoDot(ws: seq<Word>)
    ensures NoDot(Led(ws)) && (ws != [] ==> Led(ws) != "")
  {
    if ws != [] {
      LedHasNoDot(ws[1..]);
      assert NoDot(Hex(ws[0]) + ":");
    }
  }

  lemma {:induction false} JoinedHasNoDot(ws: seq<Word>)
    ensures NoDot(Joined(ws)) && (ws != [] ==> Joined(ws) != "")
  {
    if |ws| > 1 {
      JoinedHasNoDot(ws[1..]);
      assert NoDot(Hex(ws[0]) + ":");
    }
  }

  lemma {:induction false} FirstDotIs(s: string, i: nat, d: nat)
    requires i <= d <= |s| && (d < |s| ==> s[d] == '.') && forall k :: i <= k < d ==> s[k] != '.'
    ensures FirstDot(s, i) == d
  {
  }

  lemma {:induction false} ParseNoDot(s: string)
    requires NoDot(s)
    ensures Parse(s) == ParseBefore(s, |s|, [])
  {
    FirstDotIs(s, 0, |s|);
  }

  /** Eight words without a gap are read back. */
  lemma {:induction false} PlainBack(ws: seq<Word>)
    requires |ws| == 8
    ensures Parse(Joined(ws)) == Some(BytesOf(ws))
  {
    var s := Joined(ws);
    JoinedHasNoDot(ws);
    ParseNoDot(s);
    JoinedBack(s, 0, -1, [], ws);
    assert [] + ws == ws && ws + [] == ws;
  }

  function Colons(p: nat): string {
    if p == 0 then "::" else ":"
  }

  /** What the gap's colons do, behind the colon of the word before it. */
  lemma {:induction false} GapBack(s: string, src: nat, eow: nat, acc: seq<Word>)
    requires src + |Colons(|acc|)| <= eow <= |s| && |acc| <= 7 && s[src] == ':' && (acc == [] ==> s[src + 1] == ':')
    ensures ParseWords(s, src, eow, -1, acc) == ParseWords(s, src + |Colons(|acc|)|, eow, |acc|, acc)
  {
  }

  lemma {:induction false} GapPieces(s: string, a: string, p: nat, b: string)
    requires s == a + Colons(p) + b
    ensures At(s, 0, a) && At(s, |a|, Colons(p)) && At(s, |a| + |Colons(p)|, b) && |s| == |a| + |Colons(p)| + |b|
  {
    AtWhole(a + Colons(p), b);
    AtSplit(s, 0, a, Colons(p));
  }

  lemma {:induction false} ColonsAt(s: string, i: nat, p: nat)
    requires At(s, i, Colons(p))
    ensures s[i] == ':' && (p == 0 ==> i + 1 < |s| && s[i + 1] == ':')
  {
    AtHas(s, i, Colons(p), 0);
    AtHas(s, i, Colons(p), |Colons(p)| - 1);
  }

  lemma {:induction false} HeadStands(s: string, t: string, a: seq<Word>)
    requires At(s, 0, t) && t == Led(a)
    ensures Stand(s, 0, a, |t|)
  {
    LedStands(s, 0, a);
  }

  lemma {:induction false} TailStands(s: string, j: nat, u: string, b: seq<Word>)
    requires At(s, j, u) && u == Joined(b) && j + |u| == |s|
    ensures Stand(s, j, b, EndOf(s, b))
  {
    JoinedStands(s, j, b);
  }

  /** Where the words and the colons are in a text with a gap. */
  lemma {:induction false} GapStands(s: string, t: string, u: string, a: seq<Word>, b: seq<Word>)
    returns (i: nat, j: nat)
    requires s == t + Colons(|a|) + u && t == Led(a) && u == Joined(b)
    ensures j == i + |Colons(|a|)| && j <= |s| && Stand(s, 0, a, i)
    ensures s[i] == ':' && (a == [] ==> s[i + 1] == ':')
    ensures Stand(s, j, b, EndOf(s, b))
  {
    i := |t|;
    j := i + |Colons(|a|)|;
    GapPieces(s, t, |a|, u);
    HeadStands(s, t, a);
    ColonsAt(s, i, |a|);
    TailStands(s, j, u, b);
  }

  /** The words before and after a gap are read. */
  lemma {:induction false} GapWordsAt(s: string, i: nat, j: nat, a: seq<Word>, b: seq<Word>)
    requires |a| + |b| <= 7 && j == i + |Colons(|a|)| && j <= |s| && Stand(s, 0, a, i)
    requires s[i] == ':' && (a == [] ==> s[i + 1] == ':')
    requires Stand(s, j, b, EndOf(s, b))
    ensures ParseWords(s, 0, |s|, -1, []) == Some((|a|, a + b))
  {
    StandBack(s, 0, |s|, -1, [], a, i);
    assert [] + a == a;
    GapBack(s, i, |s|, a);
    StandBack(s, j, |s|, |a|, a, b, EndOf(s, b));
  }

  /** The gap is filled again. */
  lemma {:induction false} AssembledGap(a: seq<Word>, b: seq<Word>, tail: seq<Word>)
    requires |a| + |b| + |tail| <= 7
    ensures Assembled(|a|, a + b, tail) == Some(a + Zeros(8 - |a| - |b| - |tail|) + b + tail)
  {
    assert (a + b)[..|a|] == a && (a + b)[|a|..] == b;
  }

  lemma {:induction false} CutAtGap(ws: seq<Word>, p: nat, n: nat)
    requires IsRun(ws, p, n)
    ensures ws[..p] + Zeros(n) + ws[p + n..] + [] == ws
  {
  }

  lemma {:induction false} PlainIs(s: string, gap: int, words: seq<Word>, ws: seq<Word>)
    requires NoDot(s) && -1 <= gap <= |words| && |ws| == 8
    requires ParseWords(s, 0, |s|, -1, []) == Some((gap, words)) && Assembled(gap, words, []) == Some(ws)
    ensures Parse(s) == Some(BytesOf(ws))
  {
    ParseNoDot(s);
  }

  lemma {:induction false} WithGapHasNoDot(ws: seq<Word>, p: nat, n: nat)
    requires p + n <= |ws|
    ensures NoDot(WithGap(ws, p, n))
  {
    LedHasNoDot(ws[..p]);
    JoinedHasNoDot(ws[p + n..]);
  }

  lemma {:induction false} GapTextBack(s: string, ws: seq<Word>, p: nat, n: nat, i: nat, j: nat)
    requires NoDot(s) && |ws| == 8 && IsRun(ws, p, n) && n >= 1
    requires j == i + |Colons(p)| && j <= |s| && Stand(s, 0, ws[..p], i)
    requires s[i] == ':' && (p == 0 ==> s[i + 1] == ':')
    requires Stand(s, j, ws[p + n..], EndOf(s, ws[p + n..]))
    ensures Parse(s) == Some(BytesOf(ws))
  {
    var a, b := ws[..p], ws[p + n..];
    GapWordsAt(s, i, j, a, b);
    AssembledGap(a, b, []);
    CutAtGap(ws, p, n);
    PlainIs(s, p, a + b, ws);
  }

  /** A gap of any length, wherever it is, is read back. */
  lemma {:induction false} WithGapBack(ws: seq<Word>, p: nat, n: nat)
    requires |ws| == 8 && IsRun(ws, p, n) && n >= 1
    ensures Parse(WithGap(ws, p, n)) == Some(BytesOf(ws))
  {
    WithGapHasNoDot(ws, p, n);
    var i, j := GapStands(WithGap(ws, p, n), Led(ws[..p]), Joined(ws[p + n..]), ws[..p], ws[p + n..]);
    GapTextBack(WithGap(ws, p, n), ws, p, n, i, j);
  }

  lemma {:induction false} DigitsBackIs(s: string, j: nat, i: nat)
    requires j <= i <= |s| && (forall k :: j <= k < i ==> IsDigit(s[k])) && (j > 0 ==> !IsDigit(s[j - 1]))
    ensures DigitsBack(s, i) == j
    decreases i
  {
    if j < i { DigitsBackIs(s, j, i - 1); }
  }

  lemma {:induction false} ParseQuad(s: string, eow: nat, dot: nat, a: Byte, b: Byte, c: Byte, d: Byte)
    requires 0 < dot < |s| && FirstDot(s, 0) == dot && DigitsBack(s, dot) == eow &&
             ScanQuad(s, eow) == Some([a, b, c, d])
    ensures Parse(s) == ParseBefore(s, eow, [Word16(a, b), Word16(c, d)])
  {
    assert AreBytes([a, b, c, d]);
  }

  lemma {:induction false} BeforeIs(s: string, eow: nat, tail: seq<Word>, gap: int, ws: seq<Word>, r: seq<Word>)
    requires eow <= |s| && -1 <= gap <= |ws| && |r| == 8
    requires ParseWords(s, 0, eow, -1, []) == Some((gap, ws)) && Assembled(gap, ws, tail) == Some(r)
    ensures ParseBefore(s, eow, tail) == Some(BytesOf(r))
  {
  }

  /** Where the dotted quad begins. */
  lemma {:induction false} QuadPlace(lead: string, a: Byte, b: Byte, c: Byte, d: Byte)
    requires NoDot(lead) && lead != "" && lead[|lead| - 1] == ':'
    ensures var s := lead + Quad(a, b, c, d);
      Parse(s) == ParseBefore(s, |lead|, [Word16(a, b), Word16(c, d)])
  {
    var s := lead + Quad(a, b, c, d);
    AtWhole(lead, Quad(a, b, c, d));
    ScanQuadBack(s, |lead|, a, b, c, d);
    var dot := |lead| + |Dec(a)|;
    FirstDotIs(s, 0, dot);
    DigitsBackIs(s, |lead|, dot);
    ParseQuad(s, |lead|, dot, a, b, c, d);
  }

  /** The text before the dotted quad. */
  function Lead(mid: seq<Word>): string {
    "::" + Led(mid)
  }

  lemma {:induction false} LeadBack(mid: seq<Word>, rest: string)
    requires |mid| <= 1
    ensures ParseWords(Lead(mid) + rest, 0, |Lead(mid)|, -1, []) == Some((0, mid))
    ensures NoDot(Lead(mid)) && Lead(mid)[|Lead(mid)| - 1] == ':'
  {
    var s := Lead(mid) + rest;
    LedHasNoDot(mid);
    AtWhole(Lead(mid), rest);
    AtSplit(s, 0, "::", Led(mid));
    ColonsAt(s, 0, 0);
    GapBack(s, 0, |Lead(mid)|, []);
    LedBack(s, 2, |Lead(mid)|, 0, [], mid);
    assert [] + mid == mid;
    if mid != [] {
      assert Led(mid) == Hex(mid[0]) + ":" + Led(mid[1..]) && mid[1..] == [];
    }
  }

  lemma {:induction false} GapFirst(s: string, eow: nat, mid: seq<Word>, tail: seq<Word>)
    requires eow <= |s| && |mid| <= 1 && |tail| == 2 && ParseWords(s, 0, eow, -1, []) == Some((0, mid))
    ensures ParseBefore(s, eow, tail) == Some(BytesOf(Zeros(6 - |mid|) + mid + tail))
  {
    AssembledGap([], mid, tail);
    assert [] + mid == mid && [] + Zeros(6 - |mid|) == Zeros(6 - |mid|);
    BeforeIs(s, eow, tail, 0, mid, Zeros(6 - |mid|) + mid + tail);
  }

  /** A dotted quad behind a gap, and behind one more word or none, is read back. */
  lemma {:induction false} Ipv4Back(mid: seq<Word>, a: Byte, b: Byte, c: Byte, d: Byte)
    requires |mid| <= 1
    ensures Parse(Lead(mid) + Quad(a, b, c, d)) ==
            Some(BytesOf(Zeros(6 - |mid|) + mid + [Word16(a, b), Word16(c, d)]))
  {
    LeadBack(mid, Quad(a, b, c, d));
    QuadPlace(Lead(mid), a, b, c, d);
    GapFirst(Lead(mid) + Quad(a, b, c, d), |Lead(mid)|, mid, [Word16(a, b), Word16(c, d)]);
  }

  lemma {:induction false} LedEnds(ws: seq<Word>)
    requires ws != []
    ensures Led(ws) != "" && Led(ws)[|Led(ws)| - 1] == ':'
  {
    if |ws| > 1 {
      LedEnds(ws[1..]);
    } else {
      assert Led(ws[1..]) == "";
    }
  }

  /** A dotted quad behind six words is read as the last two. */
  lemma {:induction false} SixAndQuadBack(ws: seq<Word>, a: Byte, b: Byte, c: Byte, d: Byte)
    requires |ws| == 6
    ensures Parse(Led(ws) + Quad(a, b, c, d)) == Some(BytesOf(ws + [Word16(a, b), Word16(c, d)]))
  {
    hide Parse, ParseBefore, Quad, FirstDot, DigitsBack;
    var lead, tail := Led(ws), [Word16(a, b), Word16(c, d)];
    var s := lead + Quad(a, b, c, d);
    LedHasNoDot(ws);
    LedEnds(ws);
    QuadPlace(lead, a, b, c, d);
    AtWhole(lead, Quad(a, b, c, d));
    LedBack(s, 0, |lead|, -1, [], ws);
    assert [] + ws == ws;
    BeforeIs(s, |lead|, tail, -1, ws, ws + tail);
  }

  /** The words and the gap in front of a dotted quad. */
  lemma {:induction false} GapLeadBack(s: string, lead: string, a: seq<Word>, b: seq<Word>, rest: string)
    requires |a| + |b| <= 5 && lead == Led(a) + Colons(|a|) + Led(b) && s == lead + rest
    ensures ParseWords(s, 0, |lead|, -1, []) == Some((|a|, a + b))
    ensures NoDot(lead) && lead != "" && lead[|lead| - 1] == ':'
  {
    hide ParseWords;
    var i, j := |Led(a)|, |Led(a)| + |Colons(|a|)|;
    LedHasNoDot(a);
    LedHasNoDot(b);
    AtWhole(lead, rest);
    AtSplit(s, 0, Led(a) + Colons(|a|), Led(b));
    AtSplit(s, 0, Led(a), Colons(|a|));
    ColonsAt(s, i, |a|);
    LedBack(s, 0, |lead|, -1, [], a);
    assert [] + a == a;
    GapBack(s, i, |lead|, a);
    LedBack(s, j, |lead|, |a|, a, b);
    NothingLeft(s, |lead|, |a|, a + b);
    if b != [] { LedEnds(b); }
  }

  lemma {:induction false} NothingLeft(s: string, eow: nat, gap: int, ws: seq<Word>)
    requires eow <= |s| && -1 <= gap <= |ws|
    ensures ParseWords(s, eow, eow, gap, ws) == Some((gap, ws))
  {
  }

  /** So is one behind a gap, wherever it is among the six words and however long. */
  lemma {:induction false} GapAndQuadBack(ws: seq<Word>, p: nat, n: nat, a: Byte, b: Byte, c: Byte, d: Byte)
    requires |ws| == 6 && IsRun(ws, p, n) && n >= 1
    ensures Parse(Led(ws[..p]) + Colons(p) + Led(ws[p + n..]) + Quad(a, b, c, d)) ==
            Some(BytesOf(ws + [Word16(a, b), Word16(c, d)]))
  {
    hide Parse, ParseBefore, Quad, FirstDot, DigitsBack, ParseWords;
    var head, last, tail := ws[..p], ws[p + n..], [Word16(a, b), Word16(c, d)];
    var lead := Led(head) + Colons(p) + Led(last);
    var s := lead + Quad(a, b, c, d);
    GapLeadBack(s, lead, head, last, Quad(a, b, c, d));
    QuadPlace(lead, a, b, c, d);
    AssembledGap(head, last, tail);
    assert head + Zeros(n) + last == ws;
    BeforeIs(s, |lead|, tail, p, head + last, ws + tail);
  }

  lemma {:induction false} Ipv4Words(a: seq<Byte>)
    requires |a| == 16 && HoldsIpv4(WordsOf(a))
    ensures var ws := WordsOf(a);
      ws == Zeros(6 - |Mid(ws)|) + Mid(ws) + [Word16(a[12], a[13]), Word16(a[14], a[15])]
  {
    var ws := WordsOf(a);
    assert ws[6] == Word16(a[12], a[13]) && ws[7] == Word16(a[14], a[15]);
  }

  /** Parsing undoes printing: every address, through the forms that hold an IPv4 address and
      every place and length of the gap, is what its text is read as. */
  lemma {:induction false} RoundTrip(a: seq<Byte>)
    requires |a| == 16
    ensures Parse(Text(a)) == Some(a)
  {
    var ws := WordsOf(a);
    BytesOfWords(a);
    if HoldsIpv4(ws) {
      Ipv4Words(a);
      Ipv4Back(Mid(ws), a[12], a[13], a[14], a[15]);
    } else if GapPos(ws) >= 0 {
      WithGapBack(ws, GapPos(ws), ZerosAt(ws, GapPos(ws)));
    } else {
      PlainBack(ws);
    }
  }

  /** The `n` zero words at `p` are the first of the longest runs, and there are two at least. */
  ghost predicate FirstLongest(ws: seq<Word>, p: nat, n: nat) {
    p < |ws| && IsRun(ws, p, n) && n >= 2 && (p + n < |ws| ==> ws[p + n] != 0) &&
    forall q: nat, m: nat :: q < |ws| && IsRun(ws, q, m) ==> m <= n && (m == n ==> p <= q)
  }

  lemma {:induction false} TheGap(ws: seq<Word>, p: nat, n: nat)
    requires FirstLongest(ws, p, n)
    ensures GapPos(ws) == p && ZerosAt(ws, p) == n
  {
    GapIsFirstLongest(ws, p, n);
    var g := GapPos(ws);
    assert IsRun(ws, g, ZerosAt(ws, g));
    RunAtMost(ws, p, n);
    assert IsRun(ws, p, ZerosAt(ws, p));
  }

  /** The addresses that embed an IPv4 address. */
  ghost predicate Embeds(ws: seq<Word>) {
    |ws| == 8 && (forall k :: 0 <= k < 5 ==> ws[k] == 0) &&
    (ws[5] == 0xffff || (ws[5] == 0 && ws[6] != 0 && ws[7] != 0))
  }

  /** What the text looks like: the first of the longest runs of at least two zero words is the gap. */
  lemma {:induction false} TextOfGap(a: seq<Byte>, p: nat, n: nat)
    requires |a| == 16 && !Embeds(WordsOf(a)) && FirstLongest(WordsOf(a), p, n)
    ensures Text(a) == Led(WordsOf(a)[..p]) + (if p == 0 then "::" else ":") + Joined(WordsOf(a)[p + n..])
  {
    hide Joined, Led, Quad, Lead, ZerosAt, Best;
    TheGap(WordsOf(a), p, n);
  }

  lemma {:induction false} GapIsTwo(ws: seq<Word>)
    ensures GapPos(ws) == -1 || exists q: nat :: q < |ws| - 1 && IsRun(ws, q, 2)
  {
    if GapPos(ws) >= 0 { assert IsRun(ws, GapPos(ws), 2); }
  }

  /** Without such a run there is no gap. */
  lemma {:induction false} TextOfWords(a: seq<Byte>)
    requires |a| == 16 && !Embeds(WordsOf(a)) && forall q: nat :: q < 7 ==> !IsRun(WordsOf(a), q, 2)
    ensures Text(a) == Joined(WordsOf(a))
  {
    hide Joined, Led, Quad, Lead, ZerosAt, Best;
    GapIsTwo(WordsOf(a));
  }

  /** An address that embeds an IPv4 address ends in it. */
  lemma {:induction false} TextOfIpv4(a: seq<Byte>)
    requires |a| == 16 && Embeds(WordsOf(a))
    ensures Text(a) == "::" + (if WordsOf(a)[5] == 0 then "" else "ffff:") +
                       (Dec(a[12]) + "." + (Dec(a[13]) + "." + (Dec(a[14]) + "." + Dec(a[15]))))
  {
    MidText(WordsOf(a));
  }

  lemma {:induction false} MidText(ws: seq<Word>)
    requires |ws| == 8 && HoldsIpv4(ws)
    ensures Lead(Mid(ws)) == "::" + if ws[5] == 0 then "" else "ffff:"
  {
    if ws[5] == 0xffff {
      assert Numeral(0xf, Sixteen) == "f";
      assert Numeral(0xff, Sixteen) == "f" + "f";
      assert Numeral(0xfff, Sixteen) == "ff" + "f";
      assert Numeral(0xffff, Sixteen) == "fff" + "f";
      assert Led([ws[5]]) == Hex(ws[5]) + ":" + Led([]);
    }
  }

  /** So different addresses have different texts. */
  lemma {:induction false} TextIsInjective(a: seq<Byte>, b: seq<Byte>)
    requires |a| == 16 && |b| == 16 && Text(a) == Text(b)
    ensures a == b
  {
    RoundTrip(a);
    RoundTrip(b);
  }

  // ---------------------------------------------------------------- the printer

  lemma {:induction false} BestIs(ws: seq<Word>, p: nat)
    requires p < |ws|
    requires forall q :: 0 <= q < |ws| ==>
               ZerosAt(ws, q) <= ZerosAt(ws, p) && (q < p ==> ZerosAt(ws, q) < ZerosAt(ws, p))
    ensures Best(ws, |ws|) == p
  {
    var b := Best(ws, |ws|);
    assert ZerosAt(ws, b) <= ZerosAt(ws, p) && ZerosAt(ws, p) <= ZerosAt(ws, b);
  }

  /** Inside a run, fewer zero words follow. */
  lemma {:induction false} InRun(ws: seq<Word>, i: nat, q: nat)
    requires i <= q <= i + ZerosAt(ws, i) && i <= |ws|
    ensures ZerosAt(ws, q) == ZerosAt(ws, i) - (q - i)
    decreases q - i
  {
    if i < q { InRun(ws, i + 1, q); }
  }

  /** The longest run before `i` is `longest` words long and starts at `pos` first, or there is
      none. */
  ghost predicate LongestBefore(ws: seq<Word>, i: nat, pos: int, longest: nat) {
    -1 <= pos < i && (pos == -1 <==> longest == 0) && (pos >= 0 ==> ZerosAt(ws, pos) == longest) &&
    forall q {:trigger ZerosAt(ws, q)} :: 0 <= q < i ==>
      ZerosAt(ws, q) <= longest && (q < pos ==> ZerosAt(ws, q) < longest)
  }

  lemma {:induction false} LongestAfterRun(ws: seq<Word>, i: nat, pos: int, longest: nat)
    requires LongestBefore(ws, i, pos, longest) && i < |ws| && ws[i] == 0
    ensures LongestBefore(ws, i + ZerosAt(ws, i), if ZerosAt(ws, i) > longest then i else pos,
                          if ZerosAt(ws, i) > longest then ZerosAt(ws, i) else longest)
  {
    forall q | i <= q < i + ZerosAt(ws, i) ensures ZerosAt(ws, q) <= ZerosAt(ws, i) { InRun(ws, i, q); }
  }

  /** The end of the zero words from `i` on. */
  method SkipZeros(ws: seq<Word>, i: nat) returns (end: nat)
    requires i <= |ws|
    ensures end == i + ZerosAt(ws, i)
  {
    end := i;
    while end < |ws| && ws[end] == 0
      invariant i <= end <= |ws| && end + ZerosAt(ws, end) == i + ZerosAt(ws, i)
    {
      end := end + 1;
    }
  }

  /** The search for the gap (libevent/evutil.c:1634-1651). */
  method FindGap(ws: seq<Word>) returns (pos: int)
    requires |ws| == 8
    ensures pos == GapPos(ws)
  {
    pos := -1;
    var longest := 0;
    var i := 0;
    while i < 8
      invariant i <= 8 && LongestBefore(ws, i, pos, longest)
    {
      if ws[i] == 0 {
        LongestAfterRun(ws, i, pos, longest);
        var curPos := i;
        i := SkipZeros(ws, i);
        var curLen := i - curPos;
        if curLen > longest {
          pos, longest := curPos, curLen;
        }
      } else {
        i := i + 1;
      }
    }
    LongestIsGap(ws, pos, longest);
    if longest <= 1 {
      pos := -1;
    }
  }

  lemma {:induction false} LongestIsGap(ws: seq<Word>, pos: int, longest: nat)
    requires |ws| == 8 && LongestBefore(ws, 8, pos, longest)
    ensures GapPos(ws) == if longest <= 1 then -1 else pos
  {
    if pos >= 0 {
      BestIs(ws, pos);
    } else {
      assert ZerosAt(ws, Best(ws, 8)) == 0;
    }
  }

  /** What is still to be printed from the word at `i` on. */
  ghost function Rest(ws: seq<Word>, p: int, i: nat): string
    requires |ws| == 8 && -1 <= p < 8 && i <= 8
  {
    if p < i then Joined(ws[i..])
    else Led(ws[i..p]) + Colons(p) + Joined(ws[p + ZerosAt(ws, p)..])
  }

  lemma {:induction false} Append4(a: string, b: string, c: string, d: string)
    ensures a + b + c + d == a + (b + c + d)
  {
  }

  lemma {:induction false} Append5(a: string, b: string, c: string, d: string, e: string)
    ensures a + b + c + d + e == a + b + (c + d + e)
  {
  }

  lemma {:induction false} RestOfJoined(ws: seq<Word>, p: int, i: nat)
    requires |ws| == 8 && -1 <= p < i < 8
    ensures Rest(ws, p, i) == Hex(ws[i]) + (if i != 7 then ":" else "") + Rest(ws, p, i + 1)
  {
    assert ws[i..][1..] == ws[i + 1..];
    assert i == 7 ==> Hex(ws[i]) + "" + "" == Hex(ws[i]);
  }

  lemma {:induction false} RestOfLed(ws: seq<Word>, p: nat, i: nat)
    requires |ws| == 8 && i < p < 8
    ensures Rest(ws, p, i) == Hex(ws[i]) + ":" + Rest(ws, p, i + 1)
  {
    assert ws[i..p][1..] == ws[i + 1..p];
    Append5(Hex(ws[i]), ":", Led(ws[i + 1..p]), Colons(p), Joined(ws[p + ZerosAt(ws, p)..]));
  }

  lemma {:induction false} RestStep(ws: seq<Word>, p: int, i: nat, cp: string)
    requires |ws| == 8 && -1 <= p < 8 && i < 8 && i != p
    ensures cp + Hex(ws[i]) + (if i != 7 then ":" else "") + Rest(ws, p, i + 1) == cp + Rest(ws, p, i)
  {
    if p < i { RestOfJoined(ws, p, i); } else { RestOfLed(ws, p, i); }
    Append4(cp, Hex(ws[i]), if i != 7 then ":" else "", Rest(ws, p, i + 1));
  }

  lemma {:induction false} RestGap(ws: seq<Word>, p: nat, cp: string)
    requires |ws| == 8 && p < 8 && ZerosAt(ws, p) > 0
    ensures cp + Colons(p) + Rest(ws, p, p + ZerosAt(ws, p)) == cp + Rest(ws, p, p)
  {
    assert Led(ws[p..p]) == "";
  }

  /** The words and the gap are written one after the other (libevent/evutil.c:1653-1669). */
  method WriteWords(ws: seq<Word>, pos: int) returns (cp: string)
    requires |ws| == 8 && -1 <= pos < 8 && (pos >= 0 ==> ws[pos] == 0)
    ensures cp == Rest(ws, pos, 0)
  {
    cp := "";
    var i := 0;
    while i < 8
      invariant i <= 8 && cp + Rest(ws, pos, i) == Rest(ws, pos, 0)
    {
      if ws[i] == 0 && pos == i {
        RestGap(ws, pos, cp);
        cp := cp + if i == 0 then "::" else ":";
        i := SkipZeros(ws, i);
      } else {
        RestStep(ws, pos, i, cp);
        cp := cp + Hex(ws[i]);
        cp := cp + if i != 7 then ":" else "";
        i := i + 1;
      }
    }
    assert cp + "" == cp && ws[8..] == [];
  }

  /** The text, if it fits: a text that fills the buffer loses its last character to the null
      character. */
  function Printed(a: seq<Byte>, len: nat): Option<string>
    requires |a| == 16
  {
    Fitted(Text(a), len)
  }

  function Fitted(t: string, len: nat): Option<string> {
    if |t| > len then None else if |t| < len || t == "" then Some(t) else Some(t[..len - 1])
  }

  /** The form that holds an IPv4 address (libevent/evutil.c:1619-1628). */
  method WriteIpv4(ws: seq<Word>, a: array<Byte>) returns (buf: string)
    requires |ws| == 8 && a.Length == 16
    ensures buf == Lead(Mid(ws)) + Quad(a[12], a[13], a[14], a[15])
  {
    if ws[5] == 0 {
      buf := "::" + Quad(a[12], a[13], a[14], a[15]);
      assert "::" + Led([]) == "::";
    } else {
      buf := "::" + Hex(ws[5]) + ":" + Quad(a[12], a[13], a[14], a[15]);
      assert Led([ws[5]]) == Hex(ws[5]) + ":" + Led([]);
      assert "::" + (Hex(ws[5]) + ":" + "") == "::" + Hex(ws[5]) + ":";
    }
  }

  /** The words of the address (libevent/evutil.c:1612-1615). */
  method SplitWords(a: array<Byte>) returns (ws: seq<Word>)
    requires a.Length == 16
    ensures ws == WordsOf(a[..])
  {
    var words := new Word[8](i => 0);
    var i := 0;
    while i < 8
      invariant i <= 8 && a[..] == old(a[..]) && forall k :: 0 <= k < i ==> words[k] == Word16(a[2 * k], a[2 * k + 1])
    {
      words[i] := Word16(a[2 * i], a[2 * i + 1]);
      i := i + 1;
    }
    ws := words[..];
  }

  /** evutil_inet_ntop for AF_INET6 (libevent/evutil.c:1606-1674), into a buffer of `len`
      characters. */
  method Ntop(a: array<Byte>, len: nat) returns (dst: Option<string>)
    requires a.Length == 16
    ensures dst == Printed(a[..], len)
  {
    var ws := SplitWords(a);
    var buf;
    if HoldsIpv4(ws) {
      buf := WriteIpv4(ws, a);
    } else {
      var pos := FindGap(ws);
      buf := WriteWords(ws, pos);
      assert ws[0..] == ws;
    }
    assert buf == Text(a[..]);
    if |buf| > len {
      return None;
    }
    dst := Some(if |buf| < len || buf == "" then buf else buf[..len - 1]);
  }

  // ---------------------------------------------------------------- room for the text

  lemma {:induction false} LedLength(ws: seq<Word>)
    ensures |Led(ws)| <= 5 * |ws|
  {
    if ws != [] {
      HexLength(ws[0]);
      LedLength(ws[1..]);
    }
  }

  lemma {:induction false} JoinedLength(ws: seq<Word>)
    ensures |Joined(ws)| <= 5 * |ws| && (ws != [] ==> |Joined(ws)| < 5 * |ws|)
  {
    if ws != [] {
      HexLength(ws[0]);
      if |ws| > 1 { JoinedLength(ws[1..]); }
    }
  }

  lemma {:induction false} TextLength(a: seq<Byte>)
    requires |a| == 16
    ensures 1 <= |Text(a)| <= 39
  {
    var ws := WordsOf(a);
    if HoldsIpv4(ws) {
      LedLength(Mid(ws));
      DecLength(a[12]);
      DecLength(a[13]);
      DecLength(a[14]);
      DecLength(a[15]);
    } else if GapPos(ws) >= 0 {
      LedLength(ws[..GapPos(ws)]);
      JoinedLength(ws[GapPos(ws) + ZerosAt(ws, GapPos(ws))..]);
    } else {
      JoinedLength(ws);
      HexLength(ws[0]);
    }
  }

  /** The whole text is stored exactly when the buffer has room for a null character behind it, as
      every buffer of 46 characters has; and then it is read as the same address. */
  lemma {:induction false} RoundTripThroughBuffer(a: seq<Byte>, len: nat)
    requires |a| == 16
    ensures Printed(a, len) == Some(Text(a)) <==> |Text(a)| < len
    ensures |Text(a)| == len ==> Printed(a, len) == Some(Text(a)[..len - 1])
    ensures |Text(a)| > len ==> Printed(a, len) == None
    ensures len >= 46 ==> Printed(a, len).Some? && Parse(Printed(a, len).value) == Some(a)
  {
    TextLength(a);
    RoundTrip(a);
  }

  lemma {:induction false} GapOfZeros(ws: seq<Word>)
    requires |ws| == 8 && IsRun(ws, 0, 8)
    ensures GapPos(ws) == 0 && ZerosAt(ws, 0) == 8
  {
    RunAtMost(ws, 0, 8);
    GapIsFirstLongest(ws, 0, 8);
  }

  lemma {:induction false} WholeGap(ws: seq<Word>)
    requires |ws| == 8
    ensures WithGap(ws, 0, 8) == "::"
  {
    assert Led(ws[..0]) == "";
    assert Joined(ws[8..]) == "";
    assert Colons(0) == "::";
  }

  lemma {:induction false} UnspecifiedText(a: seq<Byte>)
    requires |a| == 16 && forall b :: b in a ==> b == 0
    ensures Text(a) == "::"
  {
    ZeroWords(a, WordsOf(a));
    GapOfZeros(WordsOf(a));
    WholeGap(WordsOf(a));
  }

  lemma {:induction false} ZeroWord(a: seq<Byte>, k: nat)
    requires |a| == 16 && k < 8 && a[2 * k] == 0 && a[2 * k + 1] == 0
    ensures WordsOf(a)[k] == 0
  {
  }

  lemma {:induction false} ZeroWords(a: seq<Byte>, ws: seq<Word>)
    requires |a| == 16 && (forall b :: b in a ==> b == 0) && ws == WordsOf(a)
    ensures |ws| == 8 && IsRun(ws, 0, 8) && !HoldsIpv4(ws)
  {
    forall k: nat | k < 8 ensures ws[k] == 0 {
      assert a[2 * k] in a && a[2 * k + 1] in a;
      ZeroWord(a, k);
    }
  }

  lemma {:induction false} ColonIsNoAddress(s: string)
    requires s == ":"
    ensures Parse(s) == None
  {
    assert FirstDot(s, 0) == 1;
    assert ParseWords(s, 0, 1, -1, []) == None;
  }

  /** The address of sixteen zero bytes, which is printed as "::": in a buffer of two characters its
      text loses the last one, and what is left is no address. */
  lemma {:induction false} TextIsCut(a: seq<Byte>)
    requires |a| == 16 && forall b :: b in a ==> b == 0
    ensures Text(a) == "::" && Printed(a, 2) == Some(":") && Parse(Printed(a, 2).value) == None
  {
    UnspecifiedText(a);
    var t := Text(a)[..1];
    assert t == ":";
    ColonIsNoAddress(t);
  }

  // ---------------------------------------------------------------- the parser

  /** The loop over the words before the dotted quad (libevent/evutil.c:1735-1764).  The words that
      the quad has set stay as long as there are no more than six before it. */
  method ReadWords(s: string, eow: nat, words: array<Word>) returns (ok: bool, gap: int, n: nat)
    requires eow <= |s| && words.Length == 8
    modifies words
    ensures var r := ParseWords(s, 0, eow, -1, []);
      (ok <==> r.Some?) && (ok ==> n <= 8 && r.value == (gap, words[..n]) && words[n..] == old(words[..])[n..])
  {
    ok, gap, n := true, -1, 0;
    var src := 0;
    while src < eow
      invariant n <= 8 && -1 <= gap <= n && words[n..] == old(words[..])[n..]
      invariant ParseWords(s, 0, eow, -1, []) == ParseWords(s, src, eow, gap, words[..n])
      decreases |s| + 1 - src
    {
      if n > 7 {
        return false, gap, n;
      }
      if IsXDigit(s[src]) {
        var r := Strtol(s, src);
        if r.1 > src + 4 || r.0 > 65536 {
          return false, gap, n;
        }
        if CharAt(s, r.1) != ':' && r.1 != eow {
          return false, gap, n;
        }
        ghost var was := words[..n];
        words[n] := r.0 % 65536;
        n := n + 1;
        assert words[..n] == was + [r.0 % 65536];
        src := r.1 + 1;
      } else if s[src] == ':' && n > 0 && gap == -1 {
        gap := n;
        src := src + 1;
      } else if s[src] == ':' && n == 0 && CharAt(s, src + 1) == ':' && gap == -1 {
        gap := n;
        src := src + 2;
      } else {
        return false, gap, n;
      }
    }
  }

  /** The words behind the gap are moved, and the gap is filled with zeros
      (libevent/evutil.c:1771-1780). */
  method FillGap(words: array<Word>, gap: nat, n: nat, tail: nat)
    requires words.Length == 8 && gap <= n && n + tail <= 7
    modifies words
    ensures words[..8 - tail] == old(words[..gap]) + Zeros(8 - n - tail) + old(words[gap..n])
    ensures words[8 - tail..] == old(words[8 - tail..])
  {
    var toMove, gapLen := n - gap, 8 - n - tail;
    forall k | 0 <= k < toMove {
      words[gap + gapLen + k] := words[gap + k];
    }
    assert forall k :: gap + gapLen <= k < 8 - tail ==> words[k] == old(words[..])[k - gapLen];
    forall k | 0 <= k < gapLen {
      words[gap + k] := 0;
    }
    forall k | gap <= k < gap + gapLen ensures words[k] == 0 {
      assert words[gap + (k - gap)] == 0;
    }
  }

  /** Back over the digits before the first dot (libevent/evutil.c:1714-1716). */
  method SkipBack(s: string, dot: nat) returns (eow: nat)
    requires dot <= |s|
    ensures eow <= dot && eow == DigitsBack(s, dot)
  {
    eow := dot;
    while eow > 0 && IsDigit(s[eow - 1])
      invariant eow <= dot && DigitsBack(s, eow) == DigitsBack(s, dot)
    {
      eow := eow - 1;
    }
  }

  /** The bytes of the words (libevent/evutil.c:1781-1784). */
  method WriteBytes(words: array<Word>, dst: array<Byte>)
    requires words.Length == 8 && dst.Length == 16
    modifies dst
    ensures dst[..] == BytesOf(words[..])
  {
    var i := 0;
    while i < 8
      invariant i <= 8 && forall k :: 0 <= k < 2 * i ==> dst[k] == ByteAt(words[..], k)
    {
      dst[2 * i] := words[i] / 256;
      dst[2 * i + 1] := words[i] % 256;
      assert (2 * i) % 2 == 0 && (2 * i) / 2 == i && (2 * i + 1) % 2 == 1 && (2 * i + 1) / 2 == i;
      i := i + 1;
    }
  }

  /** The number of words is checked, and the gap is filled (libevent/evutil.c:1766-1780). */
  method Assemble(words: array<Word>, gap: int, n: nat, ghost before: seq<Word>, ghost tail: seq<Word>, tailLength: nat)
    returns (ok: bool)
    requires words.Length == 8 && n <= 8 && -1 <= gap <= n && |tail| == tailLength <= 2
    requires words[..n] == before && (n + tailLength <= 8 ==> words[8 - tailLength..] == tail)
    modifies words
    ensures var r := Assembled(gap, before, tail); (ok <==> r.Some?) && (ok ==> words[..] == r.value)
  {
    var count := n + tailLength;
    if count > 8 || (count == 8 && gap != -1) || (count < 8 && gap == -1) {
      return false;
    }
    if gap >= 0 {
      assert words[..gap] == before[..gap] && words[gap..n] == before[gap..];
      FillGap(words, gap, n, tailLength);
    }
    assert words[..] == words[..8 - tailLength] + words[8 - tailLength..];
    ok := true;
  }

  /** The second half of the parser: the words before the quad are read, the gap is filled, and
      the bytes are written. */
  method Finish(s: string, eow: nat, words: array<Word>, ghost tail: seq<Word>, tailLength: nat, dst: array<Byte>)
    returns (ok: bool)
    requires eow <= |s| && words.Length == 8 && dst.Length == 16
    requires |tail| == tailLength <= 2 && words[8 - tailLength..] == tail
    modifies words, dst
    ensures var r := ParseBefore(s, eow, tail); (ok <==> r.Some?) && dst[..] == if ok then r.value else old(dst[..])
  {
    var gap, n;
    ok, gap, n := ReadWords(s, eow, words);
    if !ok {
      return;
    }
    if n + tailLength <= 8 {
      assert words[8 - tailLength..] == words[n..][8 - tailLength - n..] == tail;
    }
    ok := Assemble(words, gap, n, words[..n], tail, tailLength);
    if ok {
      WriteBytes(words, dst);
    }
  }

  /** The words of a dotted quad. */
  function QuadWords(q: seq<int>): seq<Word>
    requires |q| == 4 && AreBytes(q)
  {
    [q[0] * 256 + q[1], q[2] * 256 + q[3]]
  }

  /** The dotted quad at the end (libevent/evutil.c:1718-1732). */
  method ReadQuad(src: string, eow: nat, words: array<Word>) returns (ok: bool)
    requires eow <= |src| && words.Length == 8
    modifies words
    ensures var q := ScanQuad(src, eow);
      (ok <==> q.Some? && AreBytes(q.value)) && (ok ==> words[6..] == QuadWords(q.value))
  {
    var quad := ScanQuad(src, eow);
    if quad.None? || !AreBytes(quad.value) {
      return false;
    }
    var q := quad.value;
    words[6], words[7] := q[0] * 256 + q[1], q[2] * 256 + q[3];
    ok := true;
  }

  lemma {:induction false} ParseCases(s: string)
    ensures var dot := FirstDot(s, 0);
      var q := ScanQuad(s, DigitsBack(s, dot));
      Parse(s) == if dot == 0 && s != "" then None
                  else if dot == |s| then ParseBefore(s, |s|, [])
                  else if q.None? || !AreBytes(q.value) then None
                  else ParseBefore(s, DigitsBack(s, dot), QuadWords(q.value))
  {
  }

  /** evutil_inet_pton for AF_INET6 (libevent/evutil.c:1701-1786). */
  method Pton(src: string, dst: array<Byte>) returns (ok: bool)
    requires dst.Length == 16
    modifies dst
    ensures ok <==> Parse(src).Some?
    ensures dst[..] == if ok then Parse(src).value else old(dst[..])
  {
    ParseCases(src);
    var words := new Word[8](i => 0);
    var dot := FirstDot(src, 0);
    if dot == 0 && src != "" {
      return false;
    }
    if dot == |src| {
      ok := Finish(src, |src|, words, [], 0, dst);
      return;
    }
    var eow := SkipBack(src, dot);
    ok := ReadQuad(src, eow, words);
    if ok {
      ok := Finish(src, eow, words, words[6..], 2, dst);
    }
  }

  /** What is printed into a buffer of 46 characters is parsed into the same address. */
  method PrintThenParse(a: array<Byte>) returns (text: string, b: array<Byte>)
    requires a.Length == 16
    ensures fresh(b) && b[..] == a[..]
  {
    RoundTripThroughBuffer(a[..], 46);
    var dst := Ntop(a, 46);
    text := dst.value;
    b := new Byte[16](i => 0);
    var ok := Pton(text, b);
  }
}
