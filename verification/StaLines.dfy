/** A statistics report, line by line. */
module StaLines {
  import opened JavaText
  import opened StaReport
  import opened StaReadBack

  // ---- Hexadecimal texts ----

  function HexDigitValue(c: char): int {
    if '0' <= c <= '9' then c as int - '0' as int
    else if 'A' <= c <= 'F' then c as int - 'A' as int + 10
    else if 'a' <= c <= 'f' then c as int - 'a' as int + 10
    else 0
  }

  function HexValue(text: string): int {
    if text == "" then 0 else 16 * HexValue(text[..|text| - 1]) + HexDigitValue(text[|text| - 1])
  }

  lemma {:induction false} HexByteBehind(text: string, b: Byte, letters: char)
    requires letters in {'A', 'a'}
    ensures HexValue(text + HexByte(b, letters)) == 256 * HexValue(text) + b
  {
    var high, low := HexDigit(b / 16, letters), HexDigit(b % 16, letters);
    assert HexDigitValue(high) == b / 16 && HexDigitValue(low) == b % 16;
    assert HexByte(b, letters) == [high, low];
    assert (text + [high, low])[..|text| + 1] == text + [high];
    assert (text + [high])[..|text|] == text;
  }

  /** A printed word reads back in base 16, most significant digit first. */
  lemma {:induction false} HexReadsBack(w: U32)
    ensures HexWord(w)[..2] == "0x" && |HexWord(w)| == 10 && HexValue(HexWord(w)[2..]) == w
  {
    var a, b := HexByte(w / 0x1000000, 'A'), HexByte((w / 0x10000) % 0x100, 'A');
    var c, d := HexByte((w / 0x100) % 0x100, 'A'), HexByte(w % 0x100, 'A');
    HexByteBehind("", w / 0x1000000, 'A');
    HexByteBehind("" + a, (w / 0x10000) % 0x100, 'A');
    HexByteBehind("" + a + b, (w / 0x100) % 0x100, 'A');
    HexByteBehind("" + a + b + c, w % 0x100, 'A');
    HexWordParts(w, a, b, c, d);
    BytesOfWord(w);
  }

  lemma {:induction false} HexWordParts(w: U32, a: string, b: string, c: string, d: string)
    requires HexWord(w) == "0x" + a + b + c + d && |a| == |b| == |c| == |d| == 2
    ensures |HexWord(w)| == 10 && HexWord(w)[..2] == "0x" && HexWord(w)[2..] == "" + a + b + c + d
  {
    assert HexWord(w) == "0x" + ("" + a + b + c + d);
  }

  // ---- Lines ----

  /** The finished lines of these names and values. */
  function LinesText(names: seq<string>, values: seq<string>): string
    requires |names| == |values|
  {
    if names == [] then "" else Line(names[0], values[0]) + LinesText(names[1..], values[1..])
  }

  /** The same lines without their ends. */
  function Labelled(names: seq<string>, values: seq<string>): seq<string>
    requires |names| == |values|
  {
    seq(|names|, i requires 0 <= i < |names| => names[i] + "=" + values[i])
  }

  lemma {:induction false} PiecesOfLines(names: seq<string>, values: seq<string>, rest: string)
    requires |names| == |values| && FreeOf(names, '\n') && FreeOf(values, '\n')
    ensures Pieces(LinesText(names, values) + rest, '\n') == Labelled(names, values) + Pieces(rest, '\n')
  {
    if names == [] {
      assert "" + rest == rest;
    } else {
      var first := names[0] + "=" + values[0];
      var tail := LinesText(names[1..], values[1..]);
      PiecesOfLines(names[1..], values[1..], rest);
      assert LinesText(names, values) + rest == first + ['\n'] + (tail + rest);
      PiecesAfter(first, tail + rest, '\n');
      assert Labelled(names, values) == [first] + Labelled(names[1..], values[1..]);
    }
  }

  lemma {:induction false} LinesTogether(m: seq<string>, v: seq<string>, n: seq<string>, w: seq<string>)
    requires |m| == |v| && |n| == |w|
    ensures LinesText(m, v) + LinesText(n, w) == LinesText(m + n, v + w)
  {
    if m == [] {
      assert m + n == n && v + w == w;
    } else {
      LinesTogether(m[1..], v[1..], n, w);
      assert (m + n)[1..] == m[1..] + n && (v + w)[1..] == v[1..] + w;
    }
  }

  lemma {:induction false} ThreeLines(m: seq<string>, v: seq<string>)
    requires |m| == |v| == 3
    ensures LinesText(m, v) == Line(m[0], v[0]) + Line(m[1], v[1]) + Line(m[2], v[2])
  {
    TwoLines(m[1..], v[1..]);
  }

  lemma {:induction false} TwoLines(m: seq<string>, v: seq<string>)
    requires |m| == |v| == 2
    ensures LinesText(m, v) == Line(m[0], v[0]) + Line(m[1], v[1])
  {
    assert m[1..][1..] == [] && LinesText(m[1..], v[1..]) == Line(m[1], v[1]) + "";
  }

  lemma {:induction false} SixLines(m: seq<string>, v: seq<string>)
    requires |m| == |v| == 6
    ensures LinesText(m, v) == Six(Line(m[0], v[0]), Line(m[1], v[1]), Line(m[2], v[2]),
                                   Line(m[3], v[3]), Line(m[4], v[4]), Line(m[5], v[5]))
  {
    ThreeLines(m[..3], v[..3]);
    ThreeLines(m[3..], v[3..]);
    LinesTogether(m[..3], v[..3], m[3..], v[3..]);
    assert m[..3] + m[3..] == m && v[..3] + v[3..] == v;
  }

  lemma {:induction false} FiveLines(m: seq<string>, v: seq<string>)
    requires |m| == |v| == 5
    ensures LinesText(m, v) == Five(Line(m[0], v[0]), Line(m[1], v[1]), Line(m[2], v[2]),
                                    Line(m[3], v[3]), Line(m[4], v[4]))
  {
    ThreeLines(m[..3], v[..3]);
    TwoLines(m[3..], v[3..]);
    LinesTogether(m[..3], v[..3], m[3..], v[3..]);
    assert m[..3] + m[3..] == m && v[..3] + v[3..] == v;
  }

  // ---- The report ----

  const LINK: seq<string> := ["sta_addr", "link_score", "per", "rssi", "phy", "rate"]
  const COUNT: seq<string> := ["total_cnt", "threshold_cnt", "fail_cnt", "timeout_cnt", "apt", "aat"]
  const QUEUE: seq<string> := ["TC_buf_full_cnt", "TC_sta_que_len", "TC_avg_que_len", "TC_cur_que_len", "flag"]
  const DUMP: seq<string> := ["reserved0", "reserved1"]

  function LinkValues(s: Stats): seq<string>
    requires |s.addr| == 6
  {
    [MacText(s.addr), Decimal(s.linkScore), Decimal(s.per), Decimal(s.rssi), HexWord(s.phyMode), s.rateText]
  }

  function CountValues(s: Stats): seq<string> {
    [Decimal(s.totalCnt), Decimal(s.thresholdCnt), Decimal(s.failCnt), Decimal(s.timeoutCnt), Decimal(s.apt),
     Decimal(s.aat)]
  }

  function QueueValues(s: Stats): seq<string> {
    [QuadText(s.bufFull), QuadText(s.queLen), QuadText(s.avgQueLen), QuadText(s.curQueLen), HexWord(s.flag)]
  }

  function DumpValues(bytes: seq<Byte>): seq<string>
    requires |bytes| == 32
  {
    [GroupedHex(bytes, 0, 16), GroupedHex(bytes, 16, 32)]
  }

  lemma {:induction false} NamesAreFree()
    ensures FreeOf(LINK, '\n') && FreeOf(COUNT, '\n') && FreeOf(QUEUE, '\n') && FreeOf(DUMP, '\n')
  {
  }

  lemma {:induction false} LinkValuesAreFree(s: Stats)
    requires |s.addr| == 6 && '\n' !in s.rateText
    ensures FreeOf(LinkValues(s), '\n')
  {
    MacChars(s.addr);
    DecimalChars(s.linkScore);
    DecimalChars(s.per);
    DecimalChars(s.rssi);
    HexWordChars(s.phyMode);
  }

  lemma {:induction false} CountValuesAreFree(s: Stats)
    ensures FreeOf(CountValues(s), '\n')
  {
    DecimalChars(s.totalCnt);
    DecimalChars(s.thresholdCnt);
    DecimalChars(s.failCnt);
    DecimalChars(s.timeoutCnt);
    DecimalChars(s.apt);
    DecimalChars(s.aat);
  }

  lemma {:induction false} QueueValuesAreFree(s: Stats)
    ensures FreeOf(QueueValues(s), '\n')
  {
    QuadChars(s.bufFull);
    QuadChars(s.queLen);
    QuadChars(s.avgQueLen);
    QuadChars(s.curQueLen);
    HexWordChars(s.flag);
  }

  lemma {:induction false} GroupedHexChars(bytes: seq<Byte>, lo: nat, hi: nat)
    requires lo <= hi <= |bytes|
    ensures '\n' !in GroupedHex(bytes, lo, hi)
  {
    if lo < hi {
      GroupedHexChars(bytes, lo, hi - 1);
      HexByteChars(bytes[hi - 1], 'A');
    }
  }

  lemma {:induction false} LinkIsLines(s: Stats)
    requires |s.addr| == 6
    ensures LinkPart(Format(s)) == LinesText(LINK, LinkValues(s))
  {
    SixLines(LINK, LinkValues(s));
  }

  lemma {:induction false} CountIsLines(s: Stats)
    requires |s.addr| == 6
    ensures CountPart(Format(s)) == LinesText(COUNT, CountValues(s))
  {
    SixLines(COUNT, CountValues(s));
  }

  lemma {:induction false} QueueIsLines(s: Stats)
    requires |s.addr| == 6
    ensures QueuePart(Format(s)) == LinesText(QUEUE, QueueValues(s))
  {
    FiveLines(QUEUE, QueueValues(s));
  }

  lemma {:induction false} DumpIsLines(bytes: seq<Byte>)
    requires |bytes| == 32
    ensures Dumps(bytes) == LinesText(DUMP, DumpValues(bytes))
  {
    TwoLines(DUMP, DumpValues(bytes));
  }

  /** The values of a record, in the order of the names. */
  function Values(s: Stats): seq<string>
    requires Sized(s)
  {
    LinkValues(s) + CountValues(s) + (QueueValues(s) + DumpValues(s.reserved))
  }

  const NAMES: seq<string> := LINK + COUNT + (QUEUE + DUMP)

  lemma {:induction false} ReportIsLines(s: Stats)
    requires Sized(s)
    ensures Report(s) == LinesText(NAMES, Values(s)) + "====\n"
  {
    LinkIsLines(s);
    CountIsLines(s);
    QueueIsLines(s);
    DumpIsLines(s.reserved);
    LinesTogether(LINK, LinkValues(s), COUNT, CountValues(s));
    LinesTogether(QUEUE, QueueValues(s), DUMP, DumpValues(s.reserved));
    LinesTogether(LINK + COUNT, LinkValues(s) + CountValues(s), QUEUE + DUMP, QueueValues(s) + DumpValues(s.reserved));
    FourParts(LinkPart(Format(s)), CountPart(Format(s)), QueuePart(Format(s)), Dumps(s.reserved));
  }

  lemma {:induction false} FourParts(a: string, b: string, c: string, d: string)
    ensures a + b + c + d == a + b + (c + d)
  {
  }

  lemma {:induction false} FreeTogether(xs: seq<string>, ys: seq<string>, c: char)
    requires FreeOf(xs, c) && FreeOf(ys, c)
    ensures FreeOf(xs + ys, c)
  {
  }

  lemma {:induction false} ValuesAreFree(s: Stats)
    requires Sized(s) && '\n' !in s.rateText
    ensures FreeOf(Values(s), '\n')
  {
    LinkValuesAreFree(s);
    CountValuesAreFree(s);
    QueueValuesAreFree(s);
    GroupedHexChars(s.reserved, 0, 16);
    GroupedHexChars(s.reserved, 16, 32);
    FreeTogether(LinkValues(s), CountValues(s), '\n');
    FreeTogether(QueueValues(s), DumpValues(s.reserved), '\n');
    FreeTogether(LinkValues(s) + CountValues(s), QueueValues(s) + DumpValues(s.reserved), '\n');
  }

  /** The report, split at its line ends: which value stands under which name, in
      this order, the two dumps behind them and a closing mark. */
  lemma {:induction false} LinesOfReport(s: Stats)
    requires Sized(s) && '\n' !in s.rateText
    ensures Pieces(Report(s), '\n') == Labelled(NAMES, Values(s)) + ["====", ""]
  {
    ReportIsLines(s);
    NamesAreFree();
    FreeTogether(LINK, COUNT, '\n');
    FreeTogether(QUEUE, DUMP, '\n');
    FreeTogether(LINK + COUNT, QUEUE + DUMP, '\n');
    ValuesAreFree(s);
    PiecesOfLines(NAMES, Values(s), "====\n");
    Mark();
  }

  lemma {:induction false} Mark()
    ensures Pieces("====\n", '\n') == ["====", ""]
  {
    PiecesAfter("====", "", '\n');
    assert "====" + ['\n'] + "" == "====\n" && ["===="] + [""] == ["====", ""];
  }

  // ---- Values in parts ----

  /** The four counters of a line, first queue first, and the six address bytes. */
  lemma {:induction false} QuadReadsBack(q: Quad)
    ensures Pieces(QuadText(q), ':') == [Decimal(q[0]), Decimal(q[1]), Decimal(q[2]), Decimal(q[3])]
  {
    var a, b, c, d := Decimal(q[0]), Decimal(q[1]), Decimal(q[2]), Decimal(q[3]);
    DecimalChars(q[0]);
    DecimalChars(q[1]);
    DecimalChars(q[2]);
    DecimalChars(q[3]);
    var xs := [a, b, c, d];
    var ys, zs := [b, c, d], [c, d];
    assert xs[1..] == ys && ys[1..] == zs && zs[1..] == [d];
    assert Join(zs, ':') == c + [':'] + d && Join(ys, ':') == b + [':'] + Join(zs, ':');
    assert QuadText(q) == Join(xs, ':');
    PiecesOfJoin(xs, ':');
  }

  lemma {:induction false} MacReadsBack(addr: seq<Byte>, i: nat)
    requires |addr| == 6 && i < 6
    ensures |MacText(addr)| == 17 && HexValue(MacText(addr)[3 * i..3 * i + 2]) == addr[i]
    ensures i < 5 ==> MacText(addr)[3 * i + 2] == ':'
  {
    MacByte(addr, i);
    HexByteBehind("", addr[i], 'a');
    assert "" + HexByte(addr[i], 'a') == HexByte(addr[i], 'a');
  }
}
