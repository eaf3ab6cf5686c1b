/** Which texts evutil_inet_pton takes for IPv6 addresses (libevent/evutil.c:1701-1786), and which
    address each of them stands for, said without its loops. */
module Inet6Language {
  import opened Inet6

  // ---------------------------------------------------------------- digits and numbers

  /** A hexadecimal digit, small or capital, stands for its place among them. */
  lemma {:induction false} ValueIsPlace(c: char)
    ensures IsXDigit(c) <==> c in "0123456789abcdef" || c in "ABCDEF"
    ensures IsXDigit(c) ==>
              Value(c) < 16 && (c == "0123456789abcdef"[Value(c)] || c == "0123456789ABCDEF"[Value(c)])
    ensures IsDigit(c) <==> c in "0123456789"
    ensures IsSpace(c) <==> c in " \t\n\r" || c == 11 as char || c == 12 as char
  {
    if IsXDigit(c) {
      assert c == "0123456789abcdef"[Value(c)] || c == "ABCDEF"[Value(c) - 10];
    }
    if IsDigit(c) {
      assert c == "0123456789"[Value(c)];
    }
  }

  /** Numbers are printed with the small ones. */
  lemma {:induction false} NumeralIsSmall(n: nat, base: Base)
    ensures forall i :: 0 <= i < |Numeral(n, base)| ==> Numeral(n, base)[i] in "0123456789abcdef"
    decreases n
  {
    var d := if n < base.Size() then n else base.Rest(n);
    assert Digit(d) == "0123456789abcdef"[d];
    if n >= base.Size() { NumeralIsSmall(base.Over(n), base); }
  }

  /** Zeros in front change nothing. */
  lemma {:induction false} LeadingZero(s: string, i: nat, j: nat, base: Base)
    requires i < j <= |s| && s[i] == '0' && forall k :: i <= k < j ==> IsNumeral(s[k], base)
    ensures Number(s, i, j, base) == Number(s, i + 1, j, base)
    decreases j
  {
    if j > i + 1 {
      LeadingZero(s, i, j - 1, base);
    } else {
      assert Number(s, i, i, base) == 0 && Number(s, i + 1, j, base) == 0;
    }
  }

  /** In front of a number of a dotted quad, spaces and a plus are taken, and a minus negates it. */
  lemma {:induction false} SpaceIsSkipped(s: string, i: nat)
    requires i < |s|
    ensures IsSpace(s[i]) ==> ScanInt(s, i) == ScanInt(s, i + 1)
    ensures s[i] == '+' && i + 1 < |s| && IsDigit(s[i + 1]) ==> ScanInt(s, i) == ScanInt(s, i + 1)
    ensures s[i] == '-' && i + 1 < |s| && IsDigit(s[i + 1]) ==>
              ScanInt(s, i).Some? && ScanInt(s, i + 1).Some? &&
              ScanInt(s, i).value == (-ScanInt(s, i + 1).value.0, ScanInt(s, i + 1).value.1)
  {
    if i + 1 < |s| && IsDigit(s[i + 1]) {
      assert SkipSpace(s, i + 1) == i + 1;
      assert !IsSpace(s[i]) ==> SkipSpace(s, i) == i;
    }
  }

  /** A number begins with a digit, and ends behind its last digit; without a digit there is none. */
  lemma {:induction false} NumberIsScanned(s: string, i: nat, to: nat)
    requires i <= to <= |s| && (forall k :: i <= k < to ==> IsDigit(s[k])) && (to < |s| ==> !IsDigit(s[to]))
    ensures i < to ==>
              (forall k :: i <= k < to ==> IsNumeral(s[k], Ten)) && ScanInt(s, i) == Some((Number(s, i, to, Ten), to))
    ensures i == to && (i < |s| ==> !IsSpace(s[i]) && s[i] != '+' && s[i] != '-') ==> ScanInt(s, i) == None
    ensures i == to < |s| && (s[i] == '+' || s[i] == '-') && (i + 1 < |s| ==> !IsDigit(s[i + 1])) ==>
              ScanInt(s, i) == None
  {
    NumeralEndIs(s, i, to, Ten);
    if i + 1 <= |s| && (i + 1 < |s| ==> !IsDigit(s[i + 1])) { NumeralEndIs(s, i + 1, i + 1, Ten); }
  }

  /** Four numbers with a dot between them, and nothing behind. */
  ghost predicate QuadReads(s: string, i: nat, q: seq<int>, t: seq<nat>) {
    |q| == 4 && |t| == 4 && i <= |s| && ScanInt(s, i) == Some((q[0], t[0])) && t[3] == |s| &&
    forall k :: 0 <= k < 3 ==>
      t[k] < |s| && s[t[k]] == '.' && ScanInt(s, t[k] + 1) == Some((q[k + 1], t[k + 1]))
  }

  lemma {:induction false} QuadIff(s: string, i: nat, q: seq<int>)
    requires i <= |s|
    ensures ScanQuad(s, i) == Some(q) <==> exists t :: QuadReads(s, i, q, t)
  {
    hide ScanInt;
    if ScanQuad(s, i) == Some(q) {
      var a := ScanDotted(s, i).value.1;
      var b := ScanDotted(s, a).value.1;
      var c := ScanDotted(s, b).value.1;
      assert QuadReads(s, i, q, [a - 1, b - 1, c - 1, |s|]);
    }
    if t :| QuadReads(s, i, q, t) {
      assert ScanDotted(s, i) == Some((q[0], t[0] + 1)) && ScanDotted(s, t[0] + 1) == Some((q[1], t[1] + 1));
      assert ScanDotted(s, t[1] + 1) == Some((q[2], t[2] + 1)) && ScanInt(s, t[2] + 1) == Some((q[3], t[3]));
      assert q == [q[0], q[1], q[2], q[3]];
    }
  }

  function Power(k: nat): nat {
    if k == 0 then 1 else 16 * Power(k - 1)
  }

  lemma {:induction false} NumberBelow(s: string, i: nat, j: nat)
    requires i <= j <= |s| && forall k :: i <= k < j ==> IsNumeral(s[k], Sixteen)
    ensures Number(s, i, j, Sixteen) < Power(j - i)
    decreases j
  {
    if i < j {
      NumberBelow(s, i, j - 1);
      assert IsNumeral(s[j - 1], Sixteen);
    }
  }

  lemma {:induction false} PowerGrows(k: nat, n: nat)
    requires k <= n
    ensures Power(k) <= Power(n)
  {
    if k < n { PowerGrows(k, n - 1); }
  }

  /** Four characters make a 16-bit number. */
  lemma {:induction false} FourDigits(s: string, src: nat)
    requires src < |s| && IsXDigit(s[src]) && Strtol(s, src).1 <= src + 4
    ensures Strtol(s, src).0 < 65536
  {
    var from := if s[src] == '0' && (CharAt(s, src + 1) == 'x' || CharAt(s, src + 1) == 'X') &&
      IsXDigit(CharAt(s, src + 2)) then src + 2 else src;
    var to := NumeralEnd(s, from, Sixteen);
    NumeralEndDigits(s, from, Sixteen);
    NumberBelow(s, from, to);
    PowerGrows(to - from, 4);
    assert Power(4) == 16 * Power(3) && Power(3) == 16 * Power(2) && Power(2) == 16 * Power(1) && Power(1) == 16;
  }

  /** A word ends behind its last hexadecimal digit; 0x in front of another digit is skipped. */
  lemma {:induction false} WordIsScanned(s: string, i: nat, to: nat)
    requires i < to <= |s| && (forall k :: i <= k < to ==> IsXDigit(s[k])) && (to < |s| ==> !IsXDigit(s[to]))
    ensures forall k :: i <= k < to ==> IsNumeral(s[k], Sixteen)
    ensures !(s[i] == '0' && to == i + 1 && CharAt(s, to) in "xX" && IsXDigit(CharAt(s, to + 1))) ==>
              Strtol(s, i) == (Number(s, i, to, Sixteen), to)
    ensures i >= 2 && s[i - 2] == '0' && s[i - 1] in "xX" ==> Strtol(s, i - 2) == (Number(s, i, to, Sixteen), to)
  {
    forall k | i <= k < to ensures IsNumeral(s[k], Sixteen) { ValueIsPlace(s[k]); }
    NumeralEndIs(s, i, to, Sixteen);
    assert to > i + 1 ==> IsXDigit(s[i + 1]) && s[i + 1] != 'x' && s[i + 1] != 'X';
  }

  // ---------------------------------------------------------------- words

  /** Words stand one after the other from `src` on, up to `end`: each has four characters at most, and a
      colon behind it, or ends where the words end. */
  ghost predicate Reads(s: string, src: nat, ws: seq<Word>, eow: nat, end: nat)
    requires eow <= |s|
    decreases |ws|
  {
    if ws == [] then src == end
    else
      src < eow && IsXDigit(s[src]) &&
      var r := Strtol(s, src);
      r.0 == ws[0] && r.1 <= src + 4 && (CharAt(s, r.1) == ':' || r.1 == eow) && Reads(s, r.1 + 1, ws[1..], eow, end)
  }

  /** The colons of a gap behind `n` words. */
  ghost predicate GapStands(s: string, i: nat, eow: nat, n: nat)
    requires eow <= |s|
  {
    n <= 7 && i < eow && s[i] == ':' && (n == 0 ==> CharAt(s, i + 1) == ':')
  }

  /** Words to the end, with a gap of which the colons are at `i`. */
  ghost predicate GapReads(s: string, src: nat, before: seq<Word>, i: nat, n: nat, behind: seq<Word>, eow: nat,
                           end: nat)
    requires eow <= |s|
  {
    Reads(s, src, before, eow, i) && GapStands(s, i, eow, n) && Reads(s, i + |Colons(n)|, behind, eow, end) &&
    end >= eow
  }

  ghost predicate AllReads(s: string, src: nat, ws: seq<Word>, eow: nat, end: nat)
    requires eow <= |s|
  {
    Reads(s, src, ws, eow, end) && end >= eow
  }

  /** The text up to `eow` spells the words, with a gap behind the first `gap` of them, or without one. */
  ghost predicate Spells(s: string, eow: nat, gap: int, ws: seq<Word>)
    requires eow <= |s|
  {
    |ws| <= 8 && -1 <= gap <= |ws| &&
    if gap == -1 then exists end :: AllReads(s, 0, ws, eow, end)
    else exists i, end :: GapReads(s, 0, ws[..gap], i, gap, ws[gap..], eow, end)
  }

  /** What stands there is read. */
  lemma {:induction false} ReadsBack(s: string, src: nat, ws: seq<Word>, eow: nat, end: nat, gap: int, acc: seq<Word>)
    requires eow <= |s| && Reads(s, src, ws, eow, end) && |acc| + |ws| <= 8 && -1 <= gap <= |acc|
    ensures ParseWords(s, src, eow, gap, acc) == ParseWords(s, end, eow, gap, acc + ws)
    decreases |ws|
  {
    hide Strtol;
    if ws == [] {
      assert acc + ws == acc;
    } else {
      ReadsBack(s, Strtol(s, src).1 + 1, ws[1..], eow, end, gap, acc + [ws[0]]);
      Regroup(acc, ws);
    }
  }

  lemma {:induction false} GapIsRead(s: string, i: nat, eow: nat, acc: seq<Word>)
    requires eow <= |s| && GapStands(s, i, eow, |acc|)
    ensures ParseWords(s, i, eow, -1, acc) == ParseWords(s, i + |Colons(|acc|)|, eow, |acc|, acc)
  {
  }

  /** Behind a gap only words are read. */
  lemma {:induction false} OnlyWords(s: string, src: nat, eow: nat, gap: int, acc: seq<Word>, out: seq<Word>, g: int)
    returns (end: nat)
    requires eow <= |s| && 0 <= gap <= |acc| <= 8 && ParseWords(s, src, eow, gap, acc) == Some((g, out))
    ensures g == gap && |acc| <= |out| <= 8 && out[..|acc|] == acc && AllReads(s, src, out[|acc|..], eow, end)
    decreases |s| + 1 - src
  {
    hide Strtol;
    if src >= eow {
      end := src;
    } else {
      var r := Strtol(s, src);
      FourDigits(s, src);
      end := OnlyWords(s, r.1 + 1, eow, gap, acc + [r.0], out, g);
      Prefix(acc, r.0, out, |out|);
      Longer(s, src, eow, r.0, out[|acc| + 1..], end);
    }
  }

  /** One more word in front. */
  lemma {:induction false} Longer(s: string, src: nat, eow: nat, w: Word, rest: seq<Word>, end: nat)
    requires eow <= |s| && src < eow && IsXDigit(s[src]) && Strtol(s, src).0 == w && Strtol(s, src).1 <= src + 4
    requires CharAt(s, Strtol(s, src).1) == ':' || Strtol(s, src).1 == eow
    requires Reads(s, Strtol(s, src).1 + 1, rest, eow, end)
    ensures Reads(s, src, [w] + rest, eow, end)
  {
    hide Strtol;
    assert ([w] + rest)[1..] == rest;
  }

  lemma {:induction false} Prefix(acc: seq<Word>, w: Word, out: seq<Word>, n: nat)
    requires |acc| < n <= |out| && out[..|acc| + 1] == acc + [w]
    ensures out[..|acc|] == acc && out[|acc|..n] == [w] + out[|acc| + 1..n] && out[|acc|..] == [w] + out[|acc| + 1..]
  {
    assert out[|acc|] == out[..|acc| + 1][|acc|];
    assert out[..|acc|] == out[..|acc| + 1][..|acc|];
  }

  /** What is read stands there. */
  lemma {:induction false} OnlySpelled(s: string, src: nat, eow: nat, acc: seq<Word>, out: seq<Word>, g: int)
    returns (i: nat, end: nat)
    requires eow <= |s| && |acc| <= 8 && ParseWords(s, src, eow, -1, acc) == Some((g, out))
    ensures |acc| <= |out| <= 8 && out[..|acc|] == acc && (g == -1 || |acc| <= g <= |out|)
    ensures if g == -1 then AllReads(s, src, out[|acc|..], eow, end)
            else GapReads(s, src, out[|acc|..g], i, g, out[g..], eow, end)
    decreases |s| + 1 - src
  {
    hide Strtol;
    i, end := src, src;
    if src < eow {
      if IsXDigit(s[src]) {
        var r := Strtol(s, src);
        FourDigits(s, src);
        i, end := OnlySpelled(s, r.1 + 1, eow, acc + [r.0], out, g);
        Prefix(acc, r.0, out, if g == -1 then |out| else g);
        if g == -1 {
          Longer(s, src, eow, r.0, out[|acc| + 1..], end);
        } else {
          Longer(s, src, eow, r.0, out[|acc| + 1..g], i);
        }
      } else {
        GapIsRead(s, src, eow, acc);
        end := OnlyWords(s, src + |Colons(|acc|)|, eow, |acc|, acc, out, g);
      }
    }
  }

  /** The loop over the words reads exactly what is spelled. */
  lemma {:induction false} WordsIff(s: string, eow: nat, gap: int, ws: seq<Word>)
    requires eow <= |s|
    ensures ParseWords(s, 0, eow, -1, []) == Some((gap, ws)) <==> Spells(s, eow, gap, ws)
  {
    hide ParseWords, Reads;
    if ParseWords(s, 0, eow, -1, []) == Some((gap, ws)) {
      var i, end := OnlySpelled(s, 0, eow, [], ws, gap);
      assert ws[0..] == ws;
      if gap >= 0 { assert ws[0..gap] == ws[..gap]; }
    }
    if Spells(s, eow, gap, ws) {
      SpelledBack(s, eow, gap, ws);
    }
  }

  lemma {:induction false} SpelledBack(s: string, eow: nat, gap: int, ws: seq<Word>)
    requires eow <= |s| && Spells(s, eow, gap, ws)
    ensures ParseWords(s, 0, eow, -1, []) == Some((gap, ws))
  {
    hide Reads;
    assert [] + ws == ws;
    if gap == -1 {
      var end: nat :| AllReads(s, 0, ws, eow, end);
      ReadsBack(s, 0, ws, eow, end, -1, []);
    } else {
      var i: nat, end: nat :| GapReads(s, 0, ws[..gap], i, gap, ws[gap..], eow, end);
      assert [] + ws[..gap] == ws[..gap] && ws[..gap] + ws[gap..] == ws;
      ReadsBack(s, 0, ws[..gap], eow, i, -1, []);
      GapIsRead(s, i, eow, ws[..gap]);
      ReadsBack(s, i + |Colons(gap)|, ws[gap..], eow, end, gap, ws[..gap]);
    }
  }

  // ---------------------------------------------------------------- addresses

  /** The eight words that are meant: those that are spelled and those of the dotted quad, with at least
      one zero word in place of the gap. */
  ghost predicate Denotes(gap: int, ws: seq<Word>, tail: seq<Word>, words: seq<Word>) {
    |words| == 8 && if gap == -1 then words == ws + tail else exists n :: GapFilled(gap, ws, tail, words, n)
  }

  ghost predicate GapFilled(gap: int, ws: seq<Word>, tail: seq<Word>, words: seq<Word>, n: nat) {
    gap >= 0 && n >= 1 && IsRun(words, gap, n) && words[..gap] + words[gap + n..] == ws + tail
  }

  lemma {:induction false} AssembledIff(gap: int, ws: seq<Word>, tail: seq<Word>, words: seq<Word>)
    requires -1 <= gap <= |ws|
    ensures Assembled(gap, ws, tail) == Some(words) <==> Denotes(gap, ws, tail, words)
  {
    if gap >= 0 {
      var n := 8 - |ws| - |tail|;
      if Assembled(gap, ws, tail) == Some(words) {
        assert GapFilled(gap, ws, tail, words, n);
      }
      if Denotes(gap, ws, tail, words) {
        var m: nat :| GapFilled(gap, ws, tail, words, m);
        assert |words[..gap] + words[gap + m..]| == 8 - m;
        GapCut(gap, ws, tail, words, m);
      }
    }
  }

  lemma {:induction false} GapCut(gap: nat, ws: seq<Word>, tail: seq<Word>, words: seq<Word>, n: nat)
    requires gap <= |ws| && |words| == 8 && GapFilled(gap, ws, tail, words, n) && n == 8 - |ws| - |tail|
    ensures words == ws[..gap] + Zeros(n) + ws[gap..] + tail
  {
    var rest := words[..gap] + words[gap + n..];
    assert words[..gap] == rest[..gap] == (ws + tail)[..gap] == ws[..gap];
    assert words[gap + n..] == rest[gap..] == (ws + tail)[gap..] == ws[gap..] + tail;
    assert words == words[..gap] + words[gap..gap + n] + words[gap + n..];
    assert words[gap..gap + n] == Zeros(n);
  }

  /** A dotted quad begins at `eow`, with the digits before the first dot; its four numbers are bytes, and
      nothing is behind it. */
  ghost predicate QuadAt(s: string, eow: nat, dot: nat, q: seq<int>) {
    0 < dot < |s| && s[dot] == '.' && (forall k :: 0 <= k < dot ==> s[k] != '.') &&
    eow <= dot && (forall k :: eow <= k < dot ==> IsDigit(s[k])) && (eow > 0 ==> !IsDigit(s[eow - 1])) &&
    |q| == 4 && (exists t :: QuadReads(s, eow, q, t)) && forall i :: 0 <= i < 4 ==> 0 <= q[i] <= 255
  }

  /** Where the words end, and what the dotted quad behind them stands for, if there is one. */
  ghost predicate EndsIn(s: string, eow: nat, tail: seq<Word>) {
    (NoDot(s) && eow == |s| && tail == []) ||
    exists dot, q :: QuadAt(s, eow, dot, q) && tail == [q[0] * 256 + q[1], q[2] * 256 + q[3]]
  }

  lemma {:induction false} DigitsBackDigits(s: string, i: nat)
    requires i <= |s|
    ensures var j := DigitsBack(s, i); (forall k :: j <= k < i ==> IsDigit(s[k])) && (j > 0 ==> !IsDigit(s[j - 1]))
    decreases i
  {
    if i > 0 && IsDigit(s[i - 1]) { DigitsBackDigits(s, i - 1); }
  }

  /** The words and the dotted quad stand for the bytes. */
  ghost predicate Means(s: string, eow: nat, tail: seq<Word>, gap: int, ws: seq<Word>, words: seq<Word>, a: seq<Byte>)
    requires eow <= |s|
  {
    Spells(s, eow, gap, ws) && |words| == 8 && Denotes(gap, ws, tail, words) && a == BytesOf(words)
  }

  lemma {:induction false} BeforeIff(s: string, eow: nat, tail: seq<Word>, a: seq<Byte>)
    requires eow <= |s|
    ensures ParseBefore(s, eow, tail) == Some(a) <==> exists gap, ws, words :: Means(s, eow, tail, gap, ws, words, a)
  {
    hide ParseWords, Spells, Denotes, Assembled;
    var r := ParseWords(s, 0, eow, -1, []);
    if ParseBefore(s, eow, tail) == Some(a) {
      var (gap, ws) := r.value;
      var words := Assembled(gap, ws, tail).value;
      WordsIff(s, eow, gap, ws);
      AssembledIff(gap, ws, tail, words);
      assert Means(s, eow, tail, gap, ws, words, a);
    }
    if gap, ws, words :| Means(s, eow, tail, gap, ws, words, a) {
      WordsIff(s, eow, gap, ws);
      SpellsGap(s, eow, gap, ws);
      AssembledIff(gap, ws, tail, words);
    }
  }

  lemma {:induction false} SpellsGap(s: string, eow: nat, gap: int, ws: seq<Word>)
    requires eow <= |s| && Spells(s, eow, gap, ws)
    ensures -1 <= gap <= |ws|
  {
  }

  /** Without a dot, the words are all there is; otherwise there is one place for the quad. */
  lemma {:induction false} EndIsOne(s: string, eow: nat, tail: seq<Word>)
    requires EndsIn(s, eow, tail)
    ensures eow <= |s| && Parse(s) == ParseBefore(s, eow, tail)
  {
    hide ParseBefore, ScanQuad, QuadReads;
    if NoDot(s) && eow == |s| && tail == [] {
      ParseNoDot(s);
    } else {
      var dot, q :| QuadAt(s, eow, dot, q) && tail == [q[0] * 256 + q[1], q[2] * 256 + q[3]];
      FirstDotIs(s, 0, dot);
      DigitsBackIs(s, eow, dot);
      QuadIff(s, eow, q);
    }
  }

  lemma {:induction false} SomeEnd(s: string) returns (eow: nat, tail: seq<Word>)
    requires Parse(s).Some?
    ensures EndsIn(s, eow, tail)
  {
    hide ParseBefore, ScanQuad, QuadReads;
    var dot := FirstDot(s, 0);
    eow, tail := |s|, [];
    if dot < |s| {
      eow := DigitsBack(s, dot);
      DigitsBackDigits(s, dot);
      var q := ScanQuad(s, eow).value;
      QuadIff(s, eow, q);
      tail := [q[0] * 256 + q[1], q[2] * 256 + q[3]];
      assert QuadAt(s, eow, dot, q);
    }
  }

  /** The words end at `eow`, and with what comes behind they stand for the bytes. */
  ghost predicate IsText(s: string, eow: nat, a: seq<Byte>) {
    eow <= |s| &&
    exists tail: seq<Word>, gap, ws, words :: EndsIn(s, eow, tail) && Means(s, eow, tail, gap, ws, words, a)
  }

  /** The parser takes exactly the texts that spell eight words, with or without a gap and a dotted quad,
      for the bytes of those words, and no other text. */
  lemma {:induction false} ParseIff(s: string, a: seq<Byte>)
    ensures Parse(s) == Some(a) <==> exists eow: nat :: IsText(s, eow, a)
  {
    hide Parse, ParseBefore, EndsIn, Means;
    if Parse(s) == Some(a) {
      var eow, tail := SomeEnd(s);
      EndIsOne(s, eow, tail);
      BeforeIff(s, eow, tail, a);
      var gap, ws, words :| Means(s, eow, tail, gap, ws, words, a);
      assert IsText(s, eow, a);
    }
    if eow: nat :| IsText(s, eow, a) {
      var tail: seq<Word>, gap, ws, words :| EndsIn(s, eow, tail) && Means(s, eow, tail, gap, ws, words, a);
      EndIsOne(s, eow, tail);
      BeforeIff(s, eow, tail, a);
    }
  }

  // ---------------------------------------------------------------- texts that are no addresses

  lemma {:induction false} NumeralEndStops(s: string, i: nat, base: Base)
    requires i <= |s|
    ensures var j := NumeralEnd(s, i, base); j < |s| ==> !IsNumeral(s[j], base)
    decreases |s| - i
  {
    if i < |s| && IsNumeral(s[i], base) { NumeralEndStops(s, i + 1, base); }
  }

  lemma {:induction false} NumberSame(t: string, u: string, i: nat, j: nat, base: Base)
    requires j <= |t| <= |u| && u[..|t|] == t && forall k :: i <= k < j ==> IsNumeral(t[k], base)
    ensures (forall k :: i <= k < j ==> u[k] == t[k]) && Number(u, i, j, base) == Number(t, i, j, base)
    decreases j
  {
    assert forall k :: 0 <= k < |t| ==> u[..|t|][k] == u[k];
    if i < j { NumberSame(t, u, i, j - 1, base); }
  }

  /** A number does not reach over a colon. */
  lemma {:induction false} StrtolSame(t: string, src: nat)
    requires src < |t| && IsXDigit(t[src])
    ensures (t + ":")[src] == t[src] && Strtol(t + ":", src) == Strtol(t, src)
  {
    var u := t + ":";
    assert CharAt(u, src + 1) == CharAt(t, src + 1) || (CharAt(u, src + 1) == ':' && CharAt(t, src + 1) == '\0');
    assert CharAt(u, src + 2) == CharAt(t, src + 2) || !IsXDigit(CharAt(u, src + 2));
    var from := if t[src] == '0' && (CharAt(t, src + 1) == 'x' || CharAt(t, src + 1) == 'X') &&
      IsXDigit(CharAt(t, src + 2)) then src + 2 else src;
    var to := NumeralEnd(t, from, Sixteen);
    NumeralEndDigits(t, from, Sixteen);
    NumeralEndStops(t, from, Sixteen);
    assert forall k :: from <= k < to ==> u[k] == t[k];
    NumeralEndIs(u, from, to, Sixteen);
    NumberSame(t, u, from, to, Sixteen);
  }

  lemma {:induction false} ColonAfterWords(t: string, src: nat, gap: int, acc: seq<Word>)
    requires t != "" && IsXDigit(t[|t| - 1]) && -1 <= gap <= |acc| && (src < |t| || src == |t| + 1)
    ensures ParseWords(t + ":", src, |t| + 1, gap, acc) == ParseWords(t, src, |t|, gap, acc)
    decreases |t| + 1 - src
  {
    hide Strtol;
    var u := t + ":";
    if src < |t| && |acc| <= 7 {
      assert u[src] == t[src] && (CharAt(u, src + 1) == ':' && src + 1 < |t| <==> CharAt(t, src + 1) == ':');
      if IsXDigit(t[src]) {
        StrtolSame(t, src);
        var r := Strtol(t, src);
        if r.1 <= src + 4 && r.0 <= 65536 && (CharAt(t, r.1) == ':' || r.1 == |t|) {
          assert r.1 < |t| ==> r.1 + 1 < |t|;
          ColonAfterWords(t, r.1 + 1, gap, acc + [r.0 % 65536]);
        }
      } else if t[src] == ':' && |acc| > 0 && gap == -1 {
        ColonAfterWords(t, src + 1, |acc|, acc);
      } else if t[src] == ':' && |acc| == 0 && CharAt(t, src + 1) == ':' && gap == -1 {
        ColonAfterWords(t, src + 2, |acc|, acc);
      }
    }
  }

  /** A single colon behind the last word changes nothing, although it is no part of an address. */
  lemma {:induction false} TrailingColon(t: string)
    requires NoDot(t) && t != "" && IsXDigit(t[|t| - 1])
    ensures Parse(t + ":") == Parse(t)
  {
    hide ParseWords;
    ParseNoDot(t);
    ParseNoDot(t + ":");
    ColonAfterWords(t, 0, -1, []);
  }

  lemma {:induction false} NumeralEnds(n: nat, base: Base)
    ensures IsXDigit(Numeral(n, base)[|Numeral(n, base)| - 1])
  {
    assert IsNumeral(Numeral(n, base)[|Numeral(n, base)| - 1], base);
  }

  lemma {:induction false} JoinedEnds(ws: seq<Word>)
    requires ws != []
    ensures Joined(ws) != "" && IsXDigit(Joined(ws)[|Joined(ws)| - 1])
    decreases |ws|
  {
    NumeralEnds(ws[0], Sixteen);
    if |ws| > 1 { JoinedEnds(ws[1..]); }
  }

  /** So every text with a gap and words behind it is also taken with a colon at its end, like "1::2:",
      and so is one of eight words. */
  lemma {:induction false} ColonAtTheEnd(ws: seq<Word>, p: nat, n: nat)
    requires |ws| == 8 && IsRun(ws, p, n)
    ensures n >= 1 && p + n < 8 ==> Parse(WithGap(ws, p, n) + ":") == Some(BytesOf(ws))
    ensures Parse(Joined(ws) + ":") == Some(BytesOf(ws))
  {
    hide Parse, Joined, Led;
    JoinedHasNoDot(ws);
    JoinedEnds(ws);
    PlainBack(ws);
    TrailingColon(Joined(ws));
    if n >= 1 && p + n < 8 {
      WithGapHasNoDot(ws, p, n);
      JoinedEnds(ws[p + n..]);
      WithGapBack(ws, p, n);
      TrailingColon(WithGap(ws, p, n));
    }
  }

  /** strtol also takes a word with 0x in front of it. */
  lemma {:induction false} HexPrefixIsTaken(s: string)
    requires s == "0x1::"
    ensures Parse(s) == Some(BytesOf([1] + Zeros(7)))
  {
    ParseNoDot(s);
    assert IsXDigit(s[2]) && !IsXDigit(s[3]) && Value('1') == 1;
    assert NumeralEnd(s, 2, Sixteen) == 3;
    assert Number(s, 2, 2, Sixteen) == 0 && Number(s, 2, 3, Sixteen) == 1;
    assert Strtol(s, 0) == (1, 3);
    assert ParseWords(s, 5, 5, 1, [1]) == Some((1, [1]));
    assert ParseWords(s, 4, 5, -1, [1]) == Some((1, [1]));
    assert [] + [1] == [1];
    assert ParseWords(s, 0, 5, -1, []) == ParseWords(s, 4, 5, -1, [1]);
    AssembledGap([1], [], []);
    assert [1] + [] == [1] && [1] + Zeros(7) + [] + [] == [1] + Zeros(7);
  }
}
