/** print_sta_statistics: a report printed piece by piece into a bounded buffer. */
module StaReport {
  import JavaText

  type Byte = b: int | 0 <= b < 0x100
  type U32 = w: int | 0 <= w < 0x1_0000_0000

  // ---- Formatting ----

  /** A hexadecimal digit; letters start at the given one. */
  function HexDigit(n: nat, letters: char): char
    requires n < 16 && letters in {'A', 'a'}
  {
    if n < 10 then '0' + n as char else letters + (n - 10) as char
  }

  /** "%d", as C prints a 32-bit word: the upper half of the range is negative. */
  function Decimal(w: U32): string {
    if Signed(w) < 0 then "-" + Digits(0 - Signed(w)) else Digits(Signed(w))
  }

  function Signed(w: U32): int {
    if w < 0x8000_0000 then w else w - 0x1_0000_0000
  }

  function Digits(n: nat): string {
    if n < 10 then [HexDigit(n, 'A')] else Digits(n / 10) + [HexDigit(n % 10, 'A')]
  }

  /** "%02X" or "%02x". */
  function HexByte(b: Byte, letters: char): string
    requires letters in {'A', 'a'}
  {
    [HexDigit(b / 16, letters), HexDigit(b % 16, letters)]
  }

  /** "0x%08X". */
  function HexWord(w: U32): string {
    "0x" + HexByte(w / 0x1000000, 'A') + HexByte((w / 0x10000) % 0x100, 'A')
         + HexByte((w / 0x100) % 0x100, 'A') + HexByte(w % 0x100, 'A')
  }

  // ---- The record and its report ----

  type Quad = q: seq<U32> | |q| == 4 witness [0, 0, 0, 0]

  /** tx_rate is a double; its "%.1f" text is taken as given. */
  datatype Stats = Stats(addr: seq<Byte>, linkScore: U32, per: Byte, rssi: U32, phyMode: U32, rateText: string,
                         totalCnt: U32, thresholdCnt: U32, failCnt: U32, timeoutCnt: U32, apt: U32, aat: U32,
                         bufFull: Quad, queLen: Quad, avgQueLen: Quad, curQueLen: Quad, flag: U32, reserved: seq<Byte>)

  ghost predicate Sized(s: Stats) {
    |s.addr| == 6 && |s.reserved| == 32
  }

  function MacText(addr: seq<Byte>): string
    requires |addr| == 6
  {
    HexByte(addr[0], 'a') + ":" + HexByte(addr[1], 'a') + ":" + HexByte(addr[2], 'a') + ":"
    + HexByte(addr[3], 'a') + ":" + HexByte(addr[4], 'a') + ":" + HexByte(addr[5], 'a')
  }

  function QuadText(q: Quad): string {
    Decimal(q[0]) + ":" + Decimal(q[1]) + ":" + Decimal(q[2]) + ":" + Decimal(q[3])
  }

  function Line(name: string, value: string): string { name + "=" + value + "\n" }

  function Six(a: string, b: string, c: string, d: string, e: string, f: string): string { a + b + c + (d + e + f) }

  function Five(a: string, b: string, c: string, d: string, e: string): string { a + b + c + (d + e) }

  /** The finished lines of a report, one per field. */
  datatype Texts = Texts(staAddr: string, linkScore: string, per: string, rssi: string, phy: string, rate: string,
                         totalCnt: string, thresholdCnt: string, failCnt: string, timeoutCnt: string,
                         apt: string, aat: string,
                         bufFull: string, queLen: string, avgQueLen: string, curQueLen: string, flag: string)

  function Format(s: Stats): Texts
    requires |s.addr| == 6
  {
    Texts(Line("sta_addr", MacText(s.addr)), Line("link_score", Decimal(s.linkScore)), Line("per", Decimal(s.per)),
          Line("rssi", Decimal(s.rssi)), Line("phy", HexWord(s.phyMode)), Line("rate", s.rateText),
          Line("total_cnt", Decimal(s.totalCnt)), Line("threshold_cnt", Decimal(s.thresholdCnt)),
          Line("fail_cnt", Decimal(s.failCnt)), Line("timeout_cnt", Decimal(s.timeoutCnt)),
          Line("apt", Decimal(s.apt)), Line("aat", Decimal(s.aat)),
          Line("TC_buf_full_cnt", QuadText(s.bufFull)), Line("TC_sta_que_len", QuadText(s.queLen)),
          Line("TC_avg_que_len", QuadText(s.avgQueLen)), Line("TC_cur_que_len", QuadText(s.curQueLen)),
          Line("flag", HexWord(s.flag)))
  }

  /** One byte of a dump, with the space that closes a group of four. */
  function ByteText(bytes: seq<Byte>, i: nat): string
    requires i < |bytes|
  {
    HexByte(bytes[i], 'A') + if (i + 1) % 4 == 0 then " " else ""
  }

  /** The hex dump of bytes lo..hi, with a space after every fourth byte. */
  function GroupedHex(bytes: seq<Byte>, lo: nat, hi: nat): string
    requires lo <= hi <= |bytes|
  {
    if lo == hi then ""
    else GroupedHex(bytes, lo, hi - 1) + ByteText(bytes, hi - 1)
  }

  function DumpText(name: string, bytes: seq<Byte>, lo: nat, hi: nat): string
    requires lo <= hi <= |bytes|
  {
    name + "=" + GroupedHex(bytes, lo, hi) + "\n"
  }

  function Lines(t: Texts): string {
    Six(t.staAddr, t.linkScore, t.per, t.rssi, t.phy, t.rate)
    + Six(t.totalCnt, t.thresholdCnt, t.failCnt, t.timeoutCnt, t.apt, t.aat)
    + Five(t.bufFull, t.queLen, t.avgQueLen, t.curQueLen, t.flag)
  }

  function Dumps(bytes: seq<Byte>): string
    requires |bytes| == 32
  {
    DumpText("reserved0", bytes, 0, 16) + DumpText("reserved1", bytes, 16, 32)
  }

  function Whole(t: Texts, bytes: seq<Byte>): string
    requires |bytes| == 32
  {
    Lines(t) + Dumps(bytes) + "====\n"
  }

  function Report(s: Stats): string
    requires |s.addr| == 6 && |s.reserved| == 32
  {
    Whole(Format(s), s.reserved)
  }

  // ---- What the numbers say ----

  lemma {:induction false} DigitsReadBack(n: nat)
    ensures JavaText.DigitsValue(Digits(n)) == JavaText.Some(n)
    ensures Digits(n) != "" && '0' <= Digits(n)[0] <= '9'
  {
    var text := Digits(n);
    var last := HexDigit(n % 10, 'A');
    assert last as int - '0' as int == n % 10;
    if n < 10 {
      assert text[..|text| - 1] == "";
    } else {
      DigitsReadBack(n / 10);
      assert text[..|text| - 1] == Digits(n / 10);
      assert text[|text| - 1] == last;
      assert n == n / 10 * 10 + n % 10;
    }
  }

  /** A printed word reads back as the signed number C takes it for. */
  lemma {:induction false} DecimalReadsBack(w: U32)
    ensures JavaText.ParseInt(Decimal(w)) == JavaText.Some(Signed(w))
  {
    var magnitude := if Signed(w) < 0 then 0 - Signed(w) else Signed(w);
    DigitsReadBack(magnitude);
    if Signed(w) < 0 { assert Decimal(w)[1..] == Digits(magnitude); }
  }

  // ---- What the dump says ----

  lemma {:induction false} GroupedHexLength(bytes: seq<Byte>, lo: nat, hi: nat)
    requires lo <= hi <= |bytes| && lo % 4 == 0
    ensures |GroupedHex(bytes, lo, hi)| == 2 * (hi - lo) + (hi - lo) / 4
  {
    if lo < hi {
      GroupedHexLength(bytes, lo, hi - 1);
      QuarterStep(hi - 1 - lo);
      SamePlaceInGroup(lo, hi);
      assert |ByteText(bytes, hi - 1)| == 2 + if hi % 4 == 0 then 1 else 0;
    }
  }

  lemma {:induction false} QuarterStep(n: nat)
    ensures (n + 1) / 4 == n / 4 + if (n + 1) % 4 == 0 then 1 else 0
  {
  }

  lemma {:induction false} SamePlaceInGroup(lo: nat, hi: nat)
    requires lo <= hi && lo % 4 == 0
    ensures hi % 4 == (hi - lo) % 4
  {
  }

  /** Byte i of a dump that starts on a group boundary stands at column 2i + i/4. */
  lemma {:induction false} GroupedHexColumn(bytes: seq<Byte>, lo: nat, hi: nat, i: nat)
    requires lo <= hi <= |bytes| && lo % 4 == 0 && i < hi - lo
    ensures var col := 2 * i + i / 4;
      col + 2 <= |GroupedHex(bytes, lo, hi)| && GroupedHex(bytes, lo, hi)[col..col + 2] == HexByte(bytes[lo + i], 'A')
  {
    GroupedHexLength(bytes, lo, hi - 1);
    var front := GroupedHex(bytes, lo, hi - 1);
    var text := HexByte(bytes[hi - 1], 'A');
    var gap := if hi % 4 == 0 then " " else "";
    assert GroupedHex(bytes, lo, hi) == front + (text + gap);
    if i < hi - 1 - lo {
      GroupedHexColumn(bytes, lo, hi - 1, i);
      SliceOfFront(front, text + gap, 2 * i + i / 4);
    } else {
      SliceBehind(front, text, gap);
    }
  }

  lemma {:induction false} SliceOfFront(front: string, back: string, col: nat)
    requires col + 2 <= |front|
    ensures (front + back)[col..col + 2] == front[col..col + 2]
  {
  }

  lemma {:induction false} SliceBehind(front: string, text: string, gap: string)
    ensures (front + (text + gap))[|front|..|front| + |text|] == text
  {
  }

  lemma {:induction false} SameTextSameByte(text: string, col: nat, a: Byte, b: Byte)
    requires col + 2 <= |text| && text[col..col + 2] == HexByte(a, 'A') && text[col..col + 2] == HexByte(b, 'A')
    ensures a == b
  {
  }

  /** So the dump determines the bytes. */
  lemma {:induction false} DumpDeterminesByte(xs: seq<Byte>, ys: seq<Byte>, lo: nat, hi: nat, i: nat)
    requires lo <= hi <= |xs| && hi <= |ys| && lo % 4 == 0 && i < hi - lo
    requires GroupedHex(xs, lo, hi) == GroupedHex(ys, lo, hi)
    ensures xs[lo + i] == ys[lo + i]
  {
    GroupedHexColumn(xs, lo, hi, i);
    GroupedHexColumn(ys, lo, hi, i);
    SameTextSameByte(GroupedHex(xs, lo, hi), 2 * i + i / 4, xs[lo + i], ys[lo + i]);
  }

  lemma {:induction false} DumpTextColumns(name: string, bytes: seq<Byte>, lo: nat)
    requires lo + 16 <= |bytes| && lo % 4 == 0
    ensures var r := DumpText(name, bytes, lo, lo + 16);
      |r| == |name| + 38 && r[|name| + 1..|name| + 37] == GroupedHex(bytes, lo, lo + 16)
  {
    GroupedHexLength(bytes, lo, lo + 16);
  }

  lemma {:induction false} EqualEnds(f: string, a: string, g: string, b: string)
    requires f + a == g + b && |a| == |b|
    ensures a == b && f == g
  {
    assert |f| == |g|;
    assert (f + a)[|f|..] == a && (g + b)[|g|..] == b;
    assert (f + a)[..|f|] == f && (g + b)[..|g|] == g;
  }

  /** Whatever stands in front, equal endings have equal dumps. */
  lemma {:induction false} EndingDeterminesBytes(f: string, xs: seq<Byte>, g: string, ys: seq<Byte>, e: string, k: nat)
    requires |xs| == 32 && |ys| == 32 && k < 32
    requires f + Dumps(xs) + e == g + Dumps(ys) + e
    ensures xs[k] == ys[k]
  {
    DumpTextColumns("reserved0", xs, 0);
    DumpTextColumns("reserved1", xs, 16);
    DumpTextColumns("reserved0", ys, 0);
    DumpTextColumns("reserved1", ys, 16);
    EqualEnds(f + Dumps(xs), e, g + Dumps(ys), e);
    EqualEnds(f, Dumps(xs), g, Dumps(ys));
    EqualEnds(DumpText("reserved0", xs, 0, 16), DumpText("reserved1", xs, 16, 32),
              DumpText("reserved0", ys, 0, 16), DumpText("reserved1", ys, 16, 32));
    if k < 16 {
      DumpDeterminesByte(xs, ys, 0, 16, k);
    } else {
      DumpDeterminesByte(xs, ys, 16, 32, k - 16);
    }
  }

  /** Reports that are the same text come from records with the same reserved bytes. */
  lemma {:induction false} ReportDeterminesReserved(s: Stats, t: Stats, k: nat)
    requires Sized(s) && Sized(t) && Report(s) == Report(t) && k < 32
    ensures s.reserved[k] == t.reserved[k]
  {
    EndingDeterminesBytes(Lines(Format(s)), s.reserved, Lines(Format(t)), t.reserved, "====\n", k);
  }

  // ---- Printing ----

  /** os_snprintf of a finished text at pos with the given room: as much as fits
      before the terminating NUL, nothing at all without room; returns the full
      length. */
  method Snprintf(buf: array<char>, pos: nat, room: nat, text: string) returns (ret: nat)
    requires pos + room <= buf.Length
    modifies buf
    ensures ret == |text|
    ensures forall i :: 0 <= i < buf.Length && !(pos <= i < pos + room) ==> buf[i] == old(buf[i])
    ensures |text| < room ==> buf[pos..pos + |text|] == text && buf[pos + |text|] == '\0'
  {
    if room > 0 {
      var n := if |text| < room then |text| else room - 1;
      forall i | 0 <= i < n { buf[pos + i] := text[i]; }
      buf[pos + n] := '\0';
    }
    return |text|;
  }

  /** One print-and-check step of the report: ok exactly when the text fits with
      its NUL; nothing from buflen on is ever touched. */
  method Emit(buf: array<char>, pos: nat, buflen: nat, text: string) returns (pos': nat, ok: bool)
    requires pos <= buflen <= buf.Length
    modifies buf
    ensures ok <==> |text| < buflen - pos
    ensures ok ==> pos' == pos + |text| && buf[..pos'] == old(buf[..pos]) + text && buf[pos'] == '\0'
    ensures buf[buflen..] == old(buf[buflen..])
  {
    ghost var front := buf[..pos];
    ghost var back := buf[buflen..];
    var ret := Snprintf(buf, pos, buflen - pos, text);
    assert buf[buflen..] == back;
    if ret >= buflen - pos { return pos, false; }
    assert buf[..pos] == front;
    assert buf[..pos + ret] == buf[..pos] + buf[pos..pos + ret];
    return pos + ret, true;
  }

  /** Byte i of a dump and the space that closes its group. */
  method PrintByte(buf: array<char>, pos: nat, buflen: nat, bytes: seq<Byte>, i: nat) returns (pos': nat, ok: bool)
    requires pos <= buflen <= buf.Length && i < |bytes|
    modifies buf
    ensures var text := ByteText(bytes, i);
      && (ok <==> |text| < buflen - pos)
      && (ok ==> pos' == pos + |text| && buf[..pos'] == old(buf[..pos]) + text && buf[pos'] == '\0')
    ensures buf[buflen..] == old(buf[buflen..])
  {
    pos', ok := Emit(buf, pos, buflen, HexByte(bytes[i], 'A'));
    if ok && (i + 1) % 4 == 0 {
      pos', ok := Emit(buf, pos', buflen, " ");
    }
  }

  lemma {:induction false} GroupedHexGrows(bytes: seq<Byte>, lo: nat, mid: nat, hi: nat)
    requires lo <= mid <= hi <= |bytes|
    ensures |GroupedHex(bytes, lo, mid)| <= |GroupedHex(bytes, lo, hi)|
  {
    if mid < hi { GroupedHexGrows(bytes, lo, mid, hi - 1); }
  }

  /** The grouped hex loop over bytes lo..hi. */
  method PrintHex(buf: array<char>, pos: nat, buflen: nat, bytes: seq<Byte>, lo: nat, hi: nat)
    returns (pos': nat, ok: bool)
    requires pos < buflen <= buf.Length && buf[pos] == '\0' && lo <= hi <= |bytes|
    modifies buf
    ensures var text := GroupedHex(bytes, lo, hi);
      && (ok <==> |text| < buflen - pos)
      && (ok ==> pos' == pos + |text| && buf[..pos'] == old(buf[..pos]) + text && buf[pos'] == '\0')
    ensures buf[buflen..] == old(buf[buflen..])
  {
    pos', ok := pos, true;
    ghost var front := buf[..pos];
    ghost var done := "";
    var i := lo;
    while i < hi
      invariant lo <= i <= hi && ok
      invariant done == GroupedHex(bytes, lo, i)
      invariant pos' == pos + |done| < buflen
      invariant buf[..pos'] == front + done && buf[pos'] == '\0'
      invariant buf[buflen..] == old(buf[buflen..])
    {
      GroupedHexGrows(bytes, lo, i + 1, hi);
      ghost var text := ByteText(bytes, i);
      pos', ok := PrintByte(buf, pos', buflen, bytes, i);
      if !ok { return; }
      assert front + done + text == front + (done + text);
      done := done + text;
      i := i + 1;
    }
  }

  /** The closing newline is printed with an argument it has no use for, byte hi;
      argument tells whether that far was got. */
  method PrintDump(buf: array<char>, pos: nat, buflen: nat, name: string, bytes: seq<Byte>, lo: nat, hi: nat)
    returns (pos': nat, ok: bool, ghost argument: bool)
    requires pos <= buflen <= buf.Length && lo <= hi <= |bytes|
    modifies buf
    ensures var text := DumpText(name, bytes, lo, hi);
      && (ok <==> |text| < buflen - pos)
      && (argument <==> |text| - 1 < buflen - pos)
      && (ok ==> pos' == pos + |text| && buf[..pos'] == old(buf[..pos]) + text && buf[pos'] == '\0')
    ensures buf[buflen..] == old(buf[buflen..])
  {
    argument := false;
    pos', ok := Emit(buf, pos, buflen, name + "=");
    if !ok { return; }
    pos', ok := PrintHex(buf, pos', buflen, bytes, lo, hi);
    if !ok { return; }
    argument := true;
    pos', ok := Emit(buf, pos', buflen, "\n");
  }

  /** Three steps in a row. */
  method EmitThree(buf: array<char>, pos: nat, buflen: nat, a: string, b: string, c: string)
    returns (pos': nat, ok: bool)
    requires pos <= buflen <= buf.Length
    modifies buf
    ensures ok <==> |a + b + c| < buflen - pos
    ensures ok ==> pos' == pos + |a + b + c| && buf[..pos'] == old(buf[..pos]) + (a + b + c) && buf[pos'] == '\0'
    ensures buf[buflen..] == old(buf[buflen..])
  {
    ghost var front := buf[..pos];
    pos', ok := Emit(buf, pos, buflen, a);
    if !ok { return; }
    pos', ok := Emit(buf, pos', buflen, b);
    if !ok { return; }
    pos', ok := Emit(buf, pos', buflen, c);
    assert front + a + b + c == front + (a + b + c);
  }

  method EmitSix(buf: array<char>, pos: nat, buflen: nat,
                 a: string, b: string, c: string, d: string, e: string, f: string)
    returns (pos': nat, ok: bool)
    requires pos <= buflen <= buf.Length
    modifies buf
    ensures var text := Six(a, b, c, d, e, f);
      && (ok <==> |text| < buflen - pos)
      && (ok ==> pos' == pos + |text| && buf[..pos'] == old(buf[..pos]) + text && buf[pos'] == '\0')
    ensures buf[buflen..] == old(buf[buflen..])
  {
    ghost var front := buf[..pos];
    pos', ok := EmitThree(buf, pos, buflen, a, b, c);
    if !ok { return; }
    pos', ok := EmitThree(buf, pos', buflen, d, e, f);
    assert front + (a + b + c) + (d + e + f) == front + Six(a, b, c, d, e, f);
  }

  method EmitFive(buf: array<char>, pos: nat, buflen: nat, a: string, b: string, c: string, d: string, e: string)
    returns (pos': nat, ok: bool)
    requires pos <= buflen <= buf.Length
    modifies buf
    ensures var text := Five(a, b, c, d, e);
      && (ok <==> |text| < buflen - pos)
      && (ok ==> pos' == pos + |text| && buf[..pos'] == old(buf[..pos]) + text && buf[pos'] == '\0')
    ensures buf[buflen..] == old(buf[buflen..])
  {
    ghost var front := buf[..pos];
    pos', ok := EmitThree(buf, pos, buflen, a, b, c);
    if !ok { return; }
    pos', ok := Emit(buf, pos', buflen, d);
    if !ok { return; }
    pos', ok := Emit(buf, pos', buflen, e);
    assert front + (a + b + c) + d + e == front + Five(a, b, c, d, e);
  }

  method PrintLines(t: Texts, buf: array<char>, buflen: nat) returns (pos: nat, ok: bool)
    requires buflen <= buf.Length
    modifies buf
    ensures ok <==> |Lines(t)| < buflen
    ensures ok ==> pos == |Lines(t)| && buf[..pos] == Lines(t) && buf[pos] == '\0'
    ensures buf[buflen..] == old(buf[buflen..])
  {
    pos, ok := EmitSix(buf, 0, buflen, t.staAddr, t.linkScore, t.per, t.rssi, t.phy, t.rate);
    if !ok { return; }
    pos, ok := EmitSix(buf, pos, buflen, t.totalCnt, t.thresholdCnt, t.failCnt, t.timeoutCnt, t.apt, t.aat);
    if !ok { return; }
    pos, ok := EmitFive(buf, pos, buflen, t.bufFull, t.queLen, t.avgQueLen, t.curQueLen, t.flag);
  }

  /** overread: the second newline's unused argument was read, the byte behind
      the last of the record. */
  method PrintDumps(bytes: seq<Byte>, buf: array<char>, pos: nat, buflen: nat)
    returns (pos': nat, ok: bool, ghost overread: bool)
    requires pos <= buflen <= buf.Length && |bytes| == 32
    modifies buf
    ensures ok <==> |Dumps(bytes)| < buflen - pos
    ensures overread <==> |Dumps(bytes)| - 1 < buflen - pos
    ensures ok ==> pos' == pos + |Dumps(bytes)| && buf[..pos'] == old(buf[..pos]) + Dumps(bytes) && buf[pos'] == '\0'
    ensures buf[buflen..] == old(buf[buflen..])
  {
    ghost var front := buf[..pos];
    ghost var argument;
    overread := false;
    pos', ok, argument := PrintDump(buf, pos, buflen, "reserved0", bytes, 0, 16);
    ghost var a := DumpText("reserved0", bytes, 0, 16);
    ghost var b := DumpText("reserved1", bytes, 16, 32);
    assert |b| >= 1;
    if !ok { return; }
    pos', ok, overread := PrintDump(buf, pos', buflen, "reserved1", bytes, 16, 32);
    assert front + a + b == front + (a + b);
  }

  /** Returns 0 exactly when the whole report, with its NUL, does not fit in the
      buffer; otherwise the length of the report, which the buffer then holds.
      Nothing from buflen on is ever touched. The record is read one byte past
      its last, reserved[32], exactly when all but the report's last six
      characters fit; that byte is not printed. */
  method PrintStaStatistics(s: Stats, buf: array<char>, buflen: nat) returns (len: nat, ghost overread: bool)
    requires Sized(s) && buflen <= buf.Length
    modifies buf
    ensures len == 0 <==> |Report(s)| >= buflen
    ensures len != 0 ==> len == |Report(s)| && buf[..len] == Report(s) && buf[len] == '\0'
    ensures buf[buflen..] == old(buf[buflen..])
    ensures overread <==> |Report(s)| - 6 < buflen
  {
    len, overread := PrintAll(Format(s), s.reserved, buf, buflen);
  }

  method PrintAll(t: Texts, bytes: seq<Byte>, buf: array<char>, buflen: nat) returns (len: nat, ghost overread: bool)
    requires |bytes| == 32 && buflen <= buf.Length
    modifies buf
    ensures len == 0 <==> |Whole(t, bytes)| >= buflen
    ensures len != 0 ==> len == |Whole(t, bytes)| && buf[..len] == Whole(t, bytes) && buf[len] == '\0'
    ensures buf[buflen..] == old(buf[buflen..])
    ensures overread <==> |Whole(t, bytes)| - 6 < buflen
  {
    overread := false;
    assert |Dumps(bytes)| >= 1;
    var pos, ok := PrintLines(t, buf, buflen);
    if !ok { return 0, false; }
    pos, ok, overread := PrintDumps(bytes, buf, pos, buflen);
    if !ok { return 0, overread; }
    pos, ok := Emit(buf, pos, buflen, "====\n");
    if !ok { return 0, overread; }
    return pos, overread;
  }
}
