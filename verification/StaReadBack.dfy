/** A statistics report determines the record it was printed from. */
module StaReadBack {
  import JavaText
  import opened StaReport

  /** Two texts that agree up to the first separator agree behind it. */
  lemma {:induction false} SplitAtFirst(a: string, x: string, b: string, y: string, c: char)
    requires c !in a && c !in b && a + [c] + x == b + [c] + y
    ensures a == b && x == y
  {
    var l, r := a + [c] + x, b + [c] + y;
    assert l[|a|] == c && r[|b|] == c;
    assert forall i :: 0 <= i < |a| ==> l[i] == a[i] && a[i] in a;
    assert forall i :: 0 <= i < |b| ==> r[i] == b[i] && b[i] in b;
    assert |a| == |b|;
    assert l[..|a|] == a && r[..|b|] == b;
    assert l[|a| + 1..] == x && r[|b| + 1..] == y;
  }

  // ---- One value ----

  lemma {:induction false} DigitChars(n: nat)
    ensures forall c :: c in Digits(n) ==> '0' <= c <= '9'
  {
    if n >= 10 { DigitChars(n / 10); }
  }

  lemma {:induction false} DecimalChars(w: U32)
    ensures '\n' !in Decimal(w) && ':' !in Decimal(w)
  {
    DigitChars(if Signed(w) < 0 then 0 - Signed(w) else Signed(w));
  }

  lemma {:induction false} DecimalDetermines(a: U32, b: U32)
    requires Decimal(a) == Decimal(b)
    ensures a == b
  {
    DecimalReadsBack(a);
    DecimalReadsBack(b);
  }

  lemma {:induction false} HexByteDetermines(a: Byte, b: Byte, letters: char)
    requires letters in {'A', 'a'} && HexByte(a, letters) == HexByte(b, letters)
    ensures a == b
  {
    assert HexByte(a, letters)[0] == HexDigit(a / 16, letters) && HexByte(a, letters)[1] == HexDigit(a % 16, letters);
    assert HexByte(b, letters)[0] == HexDigit(b / 16, letters) && HexByte(b, letters)[1] == HexDigit(b % 16, letters);
  }

  lemma {:induction false} HexByteChars(b: Byte, letters: char)
    requires letters in {'A', 'a'}
    ensures '\n' !in HexByte(b, letters)
  {
  }

  /** Each byte of the word stands two characters further on. */
  lemma {:induction false} HexWordBytes(w: U32)
    ensures |HexWord(w)| == 10
    ensures HexWord(w)[2..4] == HexByte(w / 0x1000000, 'A') && HexWord(w)[4..6] == HexByte((w / 0x10000) % 0x100, 'A')
    ensures HexWord(w)[6..8] == HexByte((w / 0x100) % 0x100, 'A') && HexWord(w)[8..10] == HexByte(w % 0x100, 'A')
  {
    var p, q := HexByte(w / 0x1000000, 'A'), HexByte((w / 0x10000) % 0x100, 'A');
    var r, s := HexByte((w / 0x100) % 0x100, 'A'), HexByte(w % 0x100, 'A');
    assert HexWord(w) == ['0', 'x', p[0], p[1], q[0], q[1], r[0], r[1], s[0], s[1]];
  }

  lemma {:induction false} HexWordDetermines(a: U32, b: U32)
    requires HexWord(a) == HexWord(b)
    ensures a == b
  {
    HexWordBytes(a);
    HexWordBytes(b);
    HexByteDetermines(a / 0x1000000, b / 0x1000000, 'A');
    HexByteDetermines((a / 0x10000) % 0x100, (b / 0x10000) % 0x100, 'A');
    HexByteDetermines((a / 0x100) % 0x100, (b / 0x100) % 0x100, 'A');
    HexByteDetermines(a % 0x100, b % 0x100, 'A');
    BytesOfWord(a);
    BytesOfWord(b);
  }

  lemma {:induction false} BytesOfWord(w: U32)
    ensures w == 0x1000000 * (w / 0x1000000) + 0x10000 * ((w / 0x10000) % 0x100)
               + 0x100 * ((w / 0x100) % 0x100) + w % 0x100
  {
    TwoShifts(w);
    TwoShifts(w / 0x100);
  }

  lemma {:induction false} TwoShifts(n: nat)
    ensures (n / 0x100) / 0x100 == n / 0x10000 && n == 0x100 * (n / 0x100) + n % 0x100
    ensures (n / 0x10000) / 0x100 == n / 0x1000000
  {
  }

  lemma {:induction false} HexWordChars(w: U32)
    ensures '\n' !in HexWord(w)
  {
    HexByteChars(w / 0x1000000, 'A');
    HexByteChars((w / 0x10000) % 0x100, 'A');
    HexByteChars((w / 0x100) % 0x100, 'A');
    HexByteChars(w % 0x100, 'A');
  }

  lemma {:induction false} MacByte(addr: seq<Byte>, i: nat)
    requires |addr| == 6 && i < 6
    ensures |MacText(addr)| == 17 && MacText(addr)[3 * i..3 * i + 2] == HexByte(addr[i], 'a')
  {
  }

  lemma {:induction false} MacDetermines(a: seq<Byte>, b: seq<Byte>)
    requires |a| == 6 && |b| == 6 && MacText(a) == MacText(b)
    ensures a == b
  {
    forall i | 0 <= i < 6 ensures a[i] == b[i] {
      MacByte(a, i);
      MacByte(b, i);
      HexByteDetermines(a[i], b[i], 'a');
    }
  }

  lemma {:induction false} MacChars(a: seq<Byte>)
    requires |a| == 6
    ensures '\n' !in MacText(a)
  {
    HexByteChars(a[0], 'a');
    HexByteChars(a[1], 'a');
    HexByteChars(a[2], 'a');
    HexByteChars(a[3], 'a');
    HexByteChars(a[4], 'a');
    HexByteChars(a[5], 'a');
  }

  lemma {:induction false} FourParts(a: string, b: string, c: string, d: string,
                                     a': string, b': string, c': string, d': string)
    requires ':' !in a && ':' !in b && ':' !in c && ':' !in a' && ':' !in b' && ':' !in c'
    requires a + ":" + b + ":" + c + ":" + d == a' + ":" + b' + ":" + c' + ":" + d'
    ensures a == a' && b == b' && c == c' && d == d'
  {
    assert a + ":" + b + ":" + c + ":" + d == a + [':'] + (b + ":" + c + ":" + d);
    assert a' + ":" + b' + ":" + c' + ":" + d' == a' + [':'] + (b' + ":" + c' + ":" + d');
    SplitAtFirst(a, b + ":" + c + ":" + d, a', b' + ":" + c' + ":" + d', ':');
    assert b + ":" + c + ":" + d == b + [':'] + (c + ":" + d);
    assert b' + ":" + c' + ":" + d' == b' + [':'] + (c' + ":" + d');
    SplitAtFirst(b, c + ":" + d, b', c' + ":" + d', ':');
    SplitAtFirst(c, d, c', d', ':');
  }

  lemma {:induction false} QuadDetermines(q: Quad, r: Quad)
    requires QuadText(q) == QuadText(r)
    ensures q == r
  {
    DecimalChars(q[0]);
    DecimalChars(q[1]);
    DecimalChars(q[2]);
    DecimalChars(r[0]);
    DecimalChars(r[1]);
    DecimalChars(r[2]);
    FourParts(Decimal(q[0]), Decimal(q[1]), Decimal(q[2]), Decimal(q[3]),
              Decimal(r[0]), Decimal(r[1]), Decimal(r[2]), Decimal(r[3]));
    DecimalDetermines(q[0], r[0]);
    DecimalDetermines(q[1], r[1]);
    DecimalDetermines(q[2], r[2]);
    DecimalDetermines(q[3], r[3]);
  }

  lemma {:induction false} QuadChars(q: Quad)
    ensures '\n' !in QuadText(q)
  {
    DecimalChars(q[0]);
    DecimalChars(q[1]);
    DecimalChars(q[2]);
    DecimalChars(q[3]);
  }

  // ---- The lines ----

  ghost predicate IsLine(l: string) {
    |l| > 0 && l[|l| - 1] == '\n' && '\n' !in l[..|l| - 1]
  }

  lemma {:induction false} LineIsLine(name: string, value: string)
    requires '\n' !in name && '\n' !in value
    ensures IsLine(Line(name, value))
  {
    assert Line(name, value)[..|name| + 1 + |value|] == name + "=" + value;
  }

  lemma {:induction false} LineDetermines(name: string, v: string, w: string)
    requires Line(name, v) == Line(name, w)
    ensures v == w
  {
    var n := |name| + 1;
    assert Line(name, v)[n..n + |v|] == v && Line(name, w)[n..n + |w|] == w;
  }

  lemma {:induction false} Peel(l: string, x: string, m: string, y: string)
    requires IsLine(l) && IsLine(m) && l + x == m + y
    ensures l == m && x == y
  {
    var a, b := l[..|l| - 1], m[..|m| - 1];
    assert l == a + ['\n'] && m == b + ['\n'];
    SplitAtFirst(a, x, b, y, '\n');
  }

  lemma {:induction false} SixThenRest(a: string, b: string, c: string, d: string, e: string, f: string, x: string)
    ensures Six(a, b, c, d, e, f) + x == a + (b + (c + (d + (e + (f + x)))))
  {
  }

  lemma {:induction false} PeelFive(a: string, b: string, c: string, d: string, e: string, x: string,
                                    a': string, b': string, c': string, d': string, e': string, x': string)
    requires IsLine(a) && IsLine(b) && IsLine(c) && IsLine(d) && IsLine(e)
    requires IsLine(a') && IsLine(b') && IsLine(c') && IsLine(d') && IsLine(e')
    requires a + (b + (c + (d + (e + x)))) == a' + (b' + (c' + (d' + (e' + x'))))
    ensures a == a' && b == b' && c == c' && d == d' && e == e' && x == x'
  {
    Peel(a, b + (c + (d + (e + x))), a', b' + (c' + (d' + (e' + x'))));
    Peel(b, c + (d + (e + x)), b', c' + (d' + (e' + x')));
    Peel(c, d + (e + x), c', d' + (e' + x'));
    Peel(d, e + x, d', e' + x');
    Peel(e, x, e', x');
  }

  /** Every line but the rate's, whose text may be anything. */
  ghost predicate AllLines(t: Texts) {
    && IsLine(t.staAddr) && IsLine(t.linkScore) && IsLine(t.per) && IsLine(t.rssi) && IsLine(t.phy)
    && IsLine(t.totalCnt) && IsLine(t.thresholdCnt) && IsLine(t.failCnt) && IsLine(t.timeoutCnt)
    && IsLine(t.apt) && IsLine(t.aat)
    && IsLine(t.bufFull) && IsLine(t.queLen) && IsLine(t.avgQueLen) && IsLine(t.curQueLen) && IsLine(t.flag)
  }

  function LinkPart(t: Texts): string { Six(t.staAddr, t.linkScore, t.per, t.rssi, t.phy, t.rate) }
  function CountPart(t: Texts): string {
    Six(t.totalCnt, t.thresholdCnt, t.failCnt, t.timeoutCnt, t.apt, t.aat)
  }
  function QueuePart(t: Texts): string { Five(t.bufFull, t.queLen, t.avgQueLen, t.curQueLen, t.flag) }

  lemma {:induction false} PeelLink(t: Texts, u: Texts, x: string, y: string)
    requires AllLines(t) && AllLines(u) && t.rate == u.rate && LinkPart(t) + x == LinkPart(u) + y
    ensures t.staAddr == u.staAddr && t.linkScore == u.linkScore && t.per == u.per
    ensures t.rssi == u.rssi && t.phy == u.phy
    ensures x == y
  {
    SixThenRest(t.staAddr, t.linkScore, t.per, t.rssi, t.phy, t.rate, x);
    SixThenRest(u.staAddr, u.linkScore, u.per, u.rssi, u.phy, u.rate, y);
    PeelFive(t.staAddr, t.linkScore, t.per, t.rssi, t.phy, t.rate + x,
             u.staAddr, u.linkScore, u.per, u.rssi, u.phy, u.rate + y);
    assert (t.rate + x)[|t.rate|..] == x && (u.rate + y)[|u.rate|..] == y;
  }

  lemma {:induction false} PeelCounts(t: Texts, u: Texts, x: string, y: string)
    requires AllLines(t) && AllLines(u) && CountPart(t) + x == CountPart(u) + y
    ensures t.totalCnt == u.totalCnt && t.thresholdCnt == u.thresholdCnt && t.failCnt == u.failCnt
    ensures t.timeoutCnt == u.timeoutCnt && t.apt == u.apt && t.aat == u.aat
    ensures x == y
  {
    SixThenRest(t.totalCnt, t.thresholdCnt, t.failCnt, t.timeoutCnt, t.apt, t.aat, x);
    SixThenRest(u.totalCnt, u.thresholdCnt, u.failCnt, u.timeoutCnt, u.apt, u.aat, y);
    PeelFive(t.totalCnt, t.thresholdCnt, t.failCnt, t.timeoutCnt, t.apt, t.aat + x,
             u.totalCnt, u.thresholdCnt, u.failCnt, u.timeoutCnt, u.apt, u.aat + y);
    Peel(t.aat, x, u.aat, y);
  }

  lemma {:induction false} PeelQueues(t: Texts, u: Texts)
    requires AllLines(t) && AllLines(u) && QueuePart(t) == QueuePart(u)
    ensures t.bufFull == u.bufFull && t.queLen == u.queLen && t.avgQueLen == u.avgQueLen
    ensures t.curQueLen == u.curQueLen && t.flag == u.flag
  {
    FiveNested(t.bufFull, t.queLen, t.avgQueLen, t.curQueLen, t.flag);
    FiveNested(u.bufFull, u.queLen, u.avgQueLen, u.curQueLen, u.flag);
    PeelFive(t.bufFull, t.queLen, t.avgQueLen, t.curQueLen, t.flag, "",
             u.bufFull, u.queLen, u.avgQueLen, u.curQueLen, u.flag, "");
  }

  lemma {:induction false} FiveNested(a: string, b: string, c: string, d: string, e: string)
    ensures Five(a, b, c, d, e) == a + (b + (c + (d + (e + ""))))
  {
  }

  lemma {:induction false} LinesDetermineTexts(t: Texts, u: Texts)
    requires AllLines(t) && AllLines(u) && t.rate == u.rate && Lines(t) == Lines(u)
    ensures t == u
  {
    assert Lines(t) == LinkPart(t) + (CountPart(t) + QueuePart(t));
    assert Lines(u) == LinkPart(u) + (CountPart(u) + QueuePart(u));
    PeelLink(t, u, CountPart(t) + QueuePart(t), CountPart(u) + QueuePart(u));
    PeelCounts(t, u, QueuePart(t), QueuePart(u));
    PeelQueues(t, u);
  }

  // ---- The record ----

  lemma {:induction false} FormatIsLines(s: Stats)
    requires |s.addr| == 6
    ensures AllLines(Format(s))
  {
    MacChars(s.addr);
    LineIsLine("sta_addr", MacText(s.addr));
    DecimalLineIsLine("link_score", s.linkScore);
    DecimalLineIsLine("per", s.per);
    DecimalLineIsLine("rssi", s.rssi);
    HexWordChars(s.phyMode);
    LineIsLine("phy", HexWord(s.phyMode));
    DecimalLineIsLine("total_cnt", s.totalCnt);
    DecimalLineIsLine("threshold_cnt", s.thresholdCnt);
    DecimalLineIsLine("fail_cnt", s.failCnt);
    DecimalLineIsLine("timeout_cnt", s.timeoutCnt);
    DecimalLineIsLine("apt", s.apt);
    DecimalLineIsLine("aat", s.aat);
    QuadLineIsLine("TC_buf_full_cnt", s.bufFull);
    QuadLineIsLine("TC_sta_que_len", s.queLen);
    QuadLineIsLine("TC_avg_que_len", s.avgQueLen);
    QuadLineIsLine("TC_cur_que_len", s.curQueLen);
    HexWordChars(s.flag);
    LineIsLine("flag", HexWord(s.flag));
  }

  lemma {:induction false} DecimalLineIsLine(name: string, w: U32)
    requires '\n' !in name
    ensures IsLine(Line(name, Decimal(w)))
  {
    DecimalChars(w);
    LineIsLine(name, Decimal(w));
  }

  lemma {:induction false} QuadLineIsLine(name: string, q: Quad)
    requires '\n' !in name
    ensures IsLine(Line(name, QuadText(q)))
  {
    QuadChars(q);
    LineIsLine(name, QuadText(q));
  }

  lemma {:induction false} DecimalLineDetermines(name: string, a: U32, b: U32)
    requires Line(name, Decimal(a)) == Line(name, Decimal(b))
    ensures a == b
  {
    LineDetermines(name, Decimal(a), Decimal(b));
    DecimalDetermines(a, b);
  }

  lemma {:induction false} QuadLineDetermines(name: string, q: Quad, r: Quad)
    requires Line(name, QuadText(q)) == Line(name, QuadText(r))
    ensures q == r
  {
    LineDetermines(name, QuadText(q), QuadText(r));
    QuadDetermines(q, r);
  }

  lemma {:induction false} TextsDetermineLink(s: Stats, t: Stats)
    requires |s.addr| == 6 && |t.addr| == 6 && Format(s) == Format(t)
    ensures s.addr == t.addr && s.linkScore == t.linkScore && s.per == t.per
    ensures s.rssi == t.rssi && s.phyMode == t.phyMode
  {
    LineDetermines("sta_addr", MacText(s.addr), MacText(t.addr));
    MacDetermines(s.addr, t.addr);
    DecimalLineDetermines("link_score", s.linkScore, t.linkScore);
    DecimalLineDetermines("per", s.per, t.per);
    DecimalLineDetermines("rssi", s.rssi, t.rssi);
    LineDetermines("phy", HexWord(s.phyMode), HexWord(t.phyMode));
    HexWordDetermines(s.phyMode, t.phyMode);
  }

  lemma {:induction false} TextsDetermineCounts(s: Stats, t: Stats)
    requires |s.addr| == 6 && |t.addr| == 6 && Format(s) == Format(t)
    ensures s.totalCnt == t.totalCnt && s.thresholdCnt == t.thresholdCnt && s.failCnt == t.failCnt
    ensures s.timeoutCnt == t.timeoutCnt && s.apt == t.apt && s.aat == t.aat
  {
    DecimalLineDetermines("total_cnt", s.totalCnt, t.totalCnt);
    DecimalLineDetermines("threshold_cnt", s.thresholdCnt, t.thresholdCnt);
    DecimalLineDetermines("fail_cnt", s.failCnt, t.failCnt);
    DecimalLineDetermines("timeout_cnt", s.timeoutCnt, t.timeoutCnt);
    DecimalLineDetermines("apt", s.apt, t.apt);
    DecimalLineDetermines("aat", s.aat, t.aat);
  }

  lemma {:induction false} TextsDetermineQueues(s: Stats, t: Stats)
    requires |s.addr| == 6 && |t.addr| == 6 && Format(s) == Format(t)
    ensures s.bufFull == t.bufFull && s.queLen == t.queLen && s.avgQueLen == t.avgQueLen && s.curQueLen == t.curQueLen
    ensures s.flag == t.flag
  {
    QuadLineDetermines("TC_buf_full_cnt", s.bufFull, t.bufFull);
    QuadLineDetermines("TC_sta_que_len", s.queLen, t.queLen);
    QuadLineDetermines("TC_avg_que_len", s.avgQueLen, t.avgQueLen);
    QuadLineDetermines("TC_cur_que_len", s.curQueLen, t.curQueLen);
    LineDetermines("flag", HexWord(s.flag), HexWord(t.flag));
    HexWordDetermines(s.flag, t.flag);
  }

  lemma {:induction false} WholeDeterminesTexts(t: Texts, xs: seq<Byte>, u: Texts, ys: seq<Byte>)
    requires |xs| == 32 && |ys| == 32 && AllLines(t) && AllLines(u) && t.rate == u.rate
    requires Whole(t, xs) == Whole(u, ys)
    ensures t == u && xs == ys
  {
    DumpsLength(xs);
    DumpsLength(ys);
    EqualEnds(Lines(t) + Dumps(xs), "====\n", Lines(u) + Dumps(ys), "====\n");
    EqualEnds(Lines(t), Dumps(xs), Lines(u), Dumps(ys));
    LinesDetermineTexts(t, u);
    forall k | 0 <= k < 32 ensures xs[k] == ys[k] {
      EndingDeterminesBytes(Lines(t), xs, Lines(u), ys, "====\n", k);
    }
  }

  lemma {:induction false} DumpsLength(bytes: seq<Byte>)
    requires |bytes| == 32
    ensures |Dumps(bytes)| == 94
  {
    DumpTextColumns("reserved0", bytes, 0);
    DumpTextColumns("reserved1", bytes, 16);
  }

  /** The texts of a record, as a value of their own. */
  lemma {:induction false} TextsOf(s: Stats) returns (t: Texts)
    requires Sized(s)
    ensures t == Format(s) && AllLines(t) && t.rate == Line("rate", s.rateText) && Report(s) == Whole(t, s.reserved)
  {
    FormatIsLines(s);
    t := Format(s);
  }

  lemma {:induction false} SameReportSameTexts(s: Stats, t: Stats)
    requires Sized(s) && Sized(t) && s.rateText == t.rateText && Report(s) == Report(t)
    ensures Format(s) == Format(t) && s.reserved == t.reserved
  {
    var a := TextsOf(s);
    var b := TextsOf(t);
    WholeDeterminesTexts(a, s.reserved, b, t.reserved);
  }

  /** Reports that are the same text, with the same rate text in them, come from
      the same record: no two records are printed alike. */
  lemma {:induction false} ReportDeterminesRecord(s: Stats, t: Stats)
    requires Sized(s) && Sized(t) && s.rateText == t.rateText && Report(s) == Report(t)
    ensures s == t
  {
    SameReportSameTexts(s, t);
    TextsDetermineLink(s, t);
    TextsDetermineCounts(s, t);
    TextsDetermineQueues(s, t);
  }
}
