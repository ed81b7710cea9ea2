/**
 Two whole transfers octet by octet: the file "hi" under the name "a", plain, and with the time
 stamp in the header that turns on the checksum of YAPP C. After each event stand both ends with
 what they have sent and the other has not read yet.
 */
module YappSession {
  import opened Yapp

  lemma DownTakes(d: Down, j: Job, msg: seq<Byte>, rest: seq<Byte>)
    requires j.Valid() && d.status == Running && d.rbuf == msg + rest && Framed(msg, d.Extra())
    requires Complete(d.rbuf, d.Extra()) == |msg|
    ensures var e := DownData(d, j, msg);
            DownDrain(d, j) == if e.status == Running then DownDrain(e.(rbuf := rest), j) else e
  {
    hide DownData;
    assert d.rbuf[..|msg|] == msg && d.rbuf[|msg|..] == rest;
  }

  lemma DownRests(d: Down, j: Job)
    requires j.Valid() && d.rbuf == []
    ensures DownDrain(d, j) == d
  {
    hide DownStep;
  }

  lemma UpTakes(u: Up, j: Job, msg: seq<Byte>, pick: nat)
    requires j.Valid() && u.status == Running && u.rbuf == msg && |msg| >= 2 && Complete(msg, 0) == |msg|
    ensures var v := UpData(u, j, msg, pick);
            UpDrain(u, j, pick) == if v.status == Running then v.(rbuf := []) else v
  {
    hide UpData;
    assert u.rbuf[..|msg|] == msg && u.rbuf[|msg|..] == [];
  }

  /** What a read does to the system. */
  lemma DownReads(s: Sys, j: Job, bytes: seq<Byte>, rest: seq<Byte>, d: Down)
    requires j.Valid() && s.down.status == Running && 1 <= |bytes| <= 511
    requires s.down.rbuf == [] && s.up.tx == bytes + rest && DownDrain(s.down.(rbuf := bytes), j) == d
    ensures Enabled(s, DownReadable(|bytes|))
    ensures Next(s, j, DownReadable(|bytes|)) == Sys(s.up.(tx := rest), d)
  {
    hide DownDrain;
    assert s.up.tx[..|bytes|] == bytes && s.up.tx[|bytes|..] == rest && [] + bytes == bytes;
  }

  lemma UpReads(s: Sys, j: Job, bytes: seq<Byte>, pick: nat, u: Up)
    requires j.Valid() && s.up.status == Running && 1 <= |bytes| <= 511
    requires s.up.rbuf == [] && s.down.tx == bytes && UpDrain(s.up.(rbuf := bytes), j, pick) == u
    ensures Enabled(s, UpReadable(|bytes|, pick))
    ensures Next(s, j, UpReadable(|bytes|, pick)) == Sys(u, s.down.(tx := []))
  {
    hide UpDrain;
    assert s.down.tx[..|bytes|] == bytes && s.down.tx[|bytes|..] == [] && [] + bytes == bytes;
  }

  lemma StrnlenIs(s: seq<Byte>, n: nat)
    requires n < |s| && s[n] == 0 && forall k | 0 <= k < n :: s[k] != 0
    ensures Strnlen(s) == n
  {
    if n > 0 {
      StrnlenIs(s[1..], n - 1);
    }
  }

  lemma SumOfFile()
    ensures Sum([0x68, 0x69]) == 0xd1
  {
    assert [0x68 as Byte, 0x69][..1] == [0x68] && [0x68 as Byte][..0] == [];
    assert Sum([0x68]) == 0x68;
  }

  // ----- plain

  /** A file without a time stamp, new at the receiver. */
  const PLAIN_JOB := Job([0x61], [0x32], NoStamp, [0x68, 0x69], 253, [], false, true, [0x30])

  const PLAIN_HEADER: seq<Byte> := [0x01, 0x04, 0x61, 0x00, 0x32, 0x00]

  function PlainAfter(k: nat): Sys {
    if k == 0 then Sys(Up(Running, S, 0, false, [0x68, 0x69], [], [], [0x05, 0x01]),
        Down(Running, R, 0, false, false, [], [], [], []))
    else if k == 1 then Sys(Up(Running, S, 0, false, [0x68, 0x69], [], [], []),
        Down(Running, RH, 0, false, false, [], [], [], [0x06, 0x01]))
    else if k == 2 then Sys(Up(Running, SH, 0, false, [0x68, 0x69], [], [], PLAIN_HEADER),
        Down(Running, RH, 0, false, false, [], [], [], []))
    else if k == 3 then Sys(Up(Running, SH, 0, false, [0x68, 0x69], [], [], []),
        Down(Running, RD, 0, false, true, [0x61], [], [], [0x06, 0x02]))
    else if k == 4 then Sys(Up(Running, SD, 0, false, [], [0x68, 0x69], [], [0x02, 0x02]),
        Down(Running, RD, 0, false, true, [0x61], [], [], []))
    else if k == 5 then Sys(Up(Running, SE, 2, false, [], [], [], [0x02, 0x02, 0x68, 0x69, 0x03, 0x01]),
        Down(Running, RD, 0, false, true, [0x61], [], [], []))
    else if k == 6 then Sys(Up(Running, SE, 2, false, [], [], [], []),
        Down(Running, RH, 2, false, false, [0x61], [0x68, 0x69], [], [0x06, 0x03]))
    else if k == 7 then Sys(Up(Running, ST, 2, false, [], [], [], [0x04, 0x01]),
        Down(Running, RH, 2, false, false, [0x61], [0x68, 0x69], [], []))
    else if k == 8 then Sys(Up(Running, ST, 2, false, [], [], [], []),
        Down(Finished, RH, 2, false, false, [0x61], [0x68, 0x69], [0x04, 0x01], [0x06, 0x04]))
    else Sys(Up(Finished, ST, 2, false, [], [], [0x06, 0x04], []),
        Down(Finished, RH, 2, false, false, [0x61], [0x68, 0x69], [0x04, 0x01], []))
  }

  const PLAIN_EVENTS: seq<Event> := [
    DownReadable(2), UpReadable(2, 2), DownReadable(6), UpReadable(2, 2),
    UpWritable(2, 0), DownReadable(6), UpReadable(2, 0), DownReadable(2), UpReadable(2, 0)]

  /** The transfer ends on both sides with the file on disk. */
  lemma {:induction false} PlainSession(k: nat)
    requires k <= 9
    ensures PLAIN_JOB.Valid() && Run(PLAIN_JOB, PLAIN_EVENTS[..k]) == PlainAfter(k)
  {
    hide Next, Enabled, PlainAfter;
    if k == 0 {
      PlainStart();
    } else {
      PlainSession(k - 1);
      assert PLAIN_EVENTS[..k][..k - 1] == PLAIN_EVENTS[..k - 1];
      PlainStep(k - 1);
    }
  }

  lemma PlainStart()
    ensures Init(PLAIN_JOB) == PlainAfter(0)
  {
  }

  lemma PlainStep(k: nat)
    requires k < 9
    ensures PLAIN_JOB.Valid() && Enabled(PlainAfter(k), PLAIN_EVENTS[k])
    ensures Next(PlainAfter(k), PLAIN_JOB, PLAIN_EVENTS[k]) == PlainAfter(k + 1)
  {
    hide Next, Enabled, PlainAfter;
    match k
    case 0 => Plain0();
    case 1 => Plain1();
    case 2 => Plain2();
    case 3 => Plain3();
    case 4 => Plain4();
    case 5 => Plain5();
    case 6 => Plain6();
    case 7 => Plain7();
    case _ => Plain8();
  }

  lemma PlainHeader()
    ensures PLAIN_JOB.Valid() && Header(PLAIN_JOB) == PLAIN_HEADER
  {
  }

  lemma PlainFields()
    ensures Fields(PLAIN_HEADER[2..], 3) == 2 && FirstField(PLAIN_HEADER[2..]) == [0x61]
  {
    hide Strnlen;
    var s, t: seq<Byte> := PLAIN_HEADER[2..], [0x32, 0x00];
    assert s[2..] == t;
    StrnlenIs(s, 1);
    StrnlenIs(t, 1);
    assert t[2..] == [];
  }

  lemma Plain0()
    ensures PLAIN_JOB.Valid() && Enabled(PlainAfter(0), DownReadable(2))
    ensures Next(PlainAfter(0), PLAIN_JOB, DownReadable(2)) == PlainAfter(1)
  {
    hide Next, Enabled, DownDrain, DownData;
    var d := PlainAfter(0).down.(rbuf := [0x05, 0x01]);
    PlainMessage0();
    DownTakes(d, PLAIN_JOB, [0x05, 0x01], []);
    DownRests(PlainAfter(1).down, PLAIN_JOB);
    DownReads(PlainAfter(0), PLAIN_JOB, [0x05, 0x01], [], PlainAfter(1).down);
  }

  lemma PlainMessage0()
    ensures var d := PlainAfter(0).down.(rbuf := [0x05, 0x01]);
            && PLAIN_JOB.Valid() && Framed([0x05, 0x01], d.Extra())
            && DownData(d, PLAIN_JOB, [0x05, 0x01]) == PlainAfter(1).down.(rbuf := [0x05, 0x01])
  {
  }

  lemma Plain1()
    ensures PLAIN_JOB.Valid() && Enabled(PlainAfter(1), UpReadable(2, 2))
    ensures Next(PlainAfter(1), PLAIN_JOB, UpReadable(2, 2)) == PlainAfter(2)
  {
    hide Next, Enabled, UpDrain, UpData;
    var u := PlainAfter(1).up.(rbuf := [0x06, 0x01]);
    PlainMessage1();
    UpTakes(u, PLAIN_JOB, [0x06, 0x01], 2);
    UpReads(PlainAfter(1), PLAIN_JOB, [0x06, 0x01], 2, PlainAfter(2).up);
  }

  lemma PlainMessage1()
    ensures var u := PlainAfter(1).up.(rbuf := [0x06, 0x01]);
            PLAIN_JOB.Valid() && UpData(u, PLAIN_JOB, [0x06, 0x01], 2) == PlainAfter(2).up.(rbuf := [0x06, 0x01])
  {
    hide Header;
    PlainHeader();
  }

  lemma Plain2()
    ensures PLAIN_JOB.Valid() && Enabled(PlainAfter(2), DownReadable(6))
    ensures Next(PlainAfter(2), PLAIN_JOB, DownReadable(6)) == PlainAfter(3)
  {
    hide Next, Enabled, DownDrain, DownData;
    var d := PlainAfter(2).down.(rbuf := PLAIN_HEADER);
    PlainMessage2();
    DownTakes(d, PLAIN_JOB, PLAIN_HEADER, []);
    DownRests(PlainAfter(3).down, PLAIN_JOB);
    DownReads(PlainAfter(2), PLAIN_JOB, PLAIN_HEADER, [], PlainAfter(3).down);
  }

  lemma PlainMessage2()
    ensures var d := PlainAfter(2).down.(rbuf := PLAIN_HEADER);
            && PLAIN_JOB.Valid() && Framed(PLAIN_HEADER, d.Extra())
            && DownData(d, PLAIN_JOB, PLAIN_HEADER) == PlainAfter(3).down.(rbuf := PLAIN_HEADER)
  {
    hide Fields, FirstField;
    PlainFields();
  }

  lemma Plain3()
    ensures PLAIN_JOB.Valid() && Enabled(PlainAfter(3), UpReadable(2, 2))
    ensures Next(PlainAfter(3), PLAIN_JOB, UpReadable(2, 2)) == PlainAfter(4)
  {
    hide Next, Enabled, UpDrain, UpData;
    var u := PlainAfter(3).up.(rbuf := [0x06, 0x02]);
    PlainMessage3();
    UpTakes(u, PLAIN_JOB, [0x06, 0x02], 2);
    UpReads(PlainAfter(3), PLAIN_JOB, [0x06, 0x02], 2, PlainAfter(4).up);
  }

  lemma PlainMessage3()
    ensures var u := PlainAfter(3).up.(rbuf := [0x06, 0x02]);
            PLAIN_JOB.Valid() && UpData(u, PLAIN_JOB, [0x06, 0x02], 2) == PlainAfter(4).up.(rbuf := [0x06, 0x02])
  {
    hide Sum;
    SumOfFile();
    assert [0x68, 0x69][..2] == [0x68, 0x69] && [0x68, 0x69][2..] == [];
  }

  lemma Plain4()
    ensures PLAIN_JOB.Valid() && Enabled(PlainAfter(4), UpWritable(2, 0))
    ensures Next(PlainAfter(4), PLAIN_JOB, UpWritable(2, 0)) == PlainAfter(5)
  {
  }

  lemma Plain5()
    ensures PLAIN_JOB.Valid() && Enabled(PlainAfter(5), DownReadable(6))
    ensures Next(PlainAfter(5), PLAIN_JOB, DownReadable(6)) == PlainAfter(6)
  {
    hide Next, Enabled, DownDrain, DownData;
    var d := PlainAfter(5).down.(rbuf := [0x02, 0x02, 0x68, 0x69, 0x03, 0x01]);
    PlainBlock();
    PlainEnd();
    var e := PlainAfter(5).down.(total := 2, disk := [0x68, 0x69]);
    assert [0x02, 0x02, 0x68, 0x69] + [0x03, 0x01] == [0x02, 0x02, 0x68, 0x69, 0x03, 0x01];
    DownTakes(d, PLAIN_JOB, [0x02, 0x02, 0x68, 0x69], [0x03, 0x01]);
    DownTakes(e.(rbuf := [0x03, 0x01]), PLAIN_JOB, [0x03, 0x01], []);
    DownRests(PlainAfter(6).down, PLAIN_JOB);
    DownReads(PlainAfter(5), PLAIN_JOB, [0x02, 0x02, 0x68, 0x69, 0x03, 0x01], [], PlainAfter(6).down);
  }

  lemma PlainBlock()
    ensures var d := PlainAfter(5).down.(rbuf := [0x02, 0x02, 0x68, 0x69, 0x03, 0x01]);
            && PLAIN_JOB.Valid() && Framed([0x02, 0x02, 0x68, 0x69], d.Extra())
            && DownData(d, PLAIN_JOB, [0x02, 0x02, 0x68, 0x69]) == d.(total := 2, disk := [0x68, 0x69])
  {
    hide Sum;
    SumOfFile();
    assert [0x02, 0x02, 0x68, 0x69][2..4] == [0x68, 0x69];
  }

  lemma PlainEnd()
    ensures var e := PlainAfter(5).down.(total := 2, disk := [0x68, 0x69], rbuf := [0x03, 0x01]);
            && PLAIN_JOB.Valid() && Framed([0x03, 0x01], e.Extra())
            && DownData(e, PLAIN_JOB, [0x03, 0x01]) == PlainAfter(6).down.(rbuf := [0x03, 0x01])
  {
  }

  lemma Plain6()
    ensures PLAIN_JOB.Valid() && Enabled(PlainAfter(6), UpReadable(2, 0))
    ensures Next(PlainAfter(6), PLAIN_JOB, UpReadable(2, 0)) == PlainAfter(7)
  {
    hide Next, Enabled, UpDrain, UpData;
    var u := PlainAfter(6).up.(rbuf := [0x06, 0x03]);
    PlainMessage6();
    UpTakes(u, PLAIN_JOB, [0x06, 0x03], 0);
    UpReads(PlainAfter(6), PLAIN_JOB, [0x06, 0x03], 0, PlainAfter(7).up);
  }

  lemma PlainMessage6()
    ensures var u := PlainAfter(6).up.(rbuf := [0x06, 0x03]);
            PLAIN_JOB.Valid() && UpData(u, PLAIN_JOB, [0x06, 0x03], 0) == PlainAfter(7).up.(rbuf := [0x06, 0x03])
  {
  }

  lemma Plain7()
    ensures PLAIN_JOB.Valid() && Enabled(PlainAfter(7), DownReadable(2))
    ensures Next(PlainAfter(7), PLAIN_JOB, DownReadable(2)) == PlainAfter(8)
  {
    hide Next, Enabled, DownDrain, DownData;
    var d := PlainAfter(7).down.(rbuf := [0x04, 0x01]);
    PlainMessage7();
    DownTakes(d, PLAIN_JOB, [0x04, 0x01], []);
    DownReads(PlainAfter(7), PLAIN_JOB, [0x04, 0x01], [], PlainAfter(8).down);
  }

  lemma PlainMessage7()
    ensures var d := PlainAfter(7).down.(rbuf := [0x04, 0x01]);
            && PLAIN_JOB.Valid() && Framed([0x04, 0x01], d.Extra())
            && DownData(d, PLAIN_JOB, [0x04, 0x01]) == PlainAfter(8).down.(rbuf := [0x04, 0x01])
  {
  }

  lemma Plain8()
    ensures PLAIN_JOB.Valid() && Enabled(PlainAfter(8), UpReadable(2, 0))
    ensures Next(PlainAfter(8), PLAIN_JOB, UpReadable(2, 0)) == PlainAfter(9)
  {
    hide Next, Enabled, UpDrain, UpData;
    var u := PlainAfter(8).up.(rbuf := [0x06, 0x04]);
    PlainMessage8();
    UpTakes(u, PLAIN_JOB, [0x06, 0x04], 0);
    UpReads(PlainAfter(8), PLAIN_JOB, [0x06, 0x04], 0, PlainAfter(9).up);
  }

  lemma PlainMessage8()
    ensures var u := PlainAfter(8).up.(rbuf := [0x06, 0x04]);
            PLAIN_JOB.Valid() && UpData(u, PLAIN_JOB, [0x06, 0x04], 0) == PlainAfter(9).up.(rbuf := [0x06, 0x04])
  {
  }

  // ----- with the checksum

  /** The file with its time stamp, new at the receiver. */
  const CHECKED_JOB := Job([0x61], [0x32], Stamp([0x32, 0x37, 0x39, 0x46, 0x42, 0x46, 0x37, 0x44]), [0x68,
                0x69], 253, [], false, true, [0x30])

  const CHECKED_HEADER: seq<Byte> := [0x01, 0x0d, 0x61, 0x00, 0x32, 0x00, 0x32, 0x37, 0x39, 0x46, 0x42,
        0x46, 0x37, 0x44, 0x00]

  function CheckedAfter(k: nat): Sys {
    if k == 0 then Sys(Up(Running, S, 0, false, [0x68, 0x69], [], [], [0x05, 0x01]),
        Down(Running, R, 0, false, false, [], [], [], []))
    else if k == 1 then Sys(Up(Running, S, 0, false, [0x68, 0x69], [], [], []),
        Down(Running, RH, 0, false, false, [], [], [], [0x06, 0x01]))
    else if k == 2 then Sys(Up(Running, SH, 0, false, [0x68, 0x69], [], [], CHECKED_HEADER),
        Down(Running, RH, 0, false, false, [], [], [], []))
    else if k == 3 then Sys(Up(Running, SH, 0, false, [0x68, 0x69], [], [], []),
        Down(Running, RD, 0, true, true, [0x61], [], [], [0x06, 0x06]))
    else if k == 4 then Sys(Up(Running, SD, 0, true, [], [0x68, 0x69, 0xd1], [], [0x02, 0x02]),
        Down(Running, RD, 0, true, true, [0x61], [], [], []))
    else if k == 5 then Sys(Up(Running, SE, 2, true, [], [], [], [0x02, 0x02, 0x68, 0x69, 0xd1, 0x03, 0x01]),
        Down(Running, RD, 0, true, true, [0x61], [], [], []))
    else if k == 6 then Sys(Up(Running, SE, 2, true, [], [], [], []),
        Down(Running, RH, 2, true, false, [0x61], [0x68, 0x69], [], [0x06, 0x03]))
    else if k == 7 then Sys(Up(Running, ST, 2, true, [], [], [], [0x04, 0x01]),
        Down(Running, RH, 2, true, false, [0x61], [0x68, 0x69], [], []))
    else if k == 8 then Sys(Up(Running, ST, 2, true, [], [], [], []),
        Down(Finished, RH, 2, true, false, [0x61], [0x68, 0x69], [0x04, 0x01], [0x06, 0x04]))
    else Sys(Up(Finished, ST, 2, true, [], [], [0x06, 0x04], []),
        Down(Finished, RH, 2, true, false, [0x61], [0x68, 0x69], [0x04, 0x01], []))
  }

  const CHECKED_EVENTS: seq<Event> := [
    DownReadable(2), UpReadable(2, 2), DownReadable(15), UpReadable(2, 2),
    UpWritable(3, 0), DownReadable(7), UpReadable(2, 0), DownReadable(2), UpReadable(2, 0)]

  /** The transfer ends on both sides with the file on disk. */
  lemma {:induction false} CheckedSession(k: nat)
    requires k <= 9
    ensures CHECKED_JOB.Valid() && Run(CHECKED_JOB, CHECKED_EVENTS[..k]) == CheckedAfter(k)
  {
    hide Next, Enabled, CheckedAfter;
    if k == 0 {
      CheckedStart();
    } else {
      CheckedSession(k - 1);
      assert CHECKED_EVENTS[..k][..k - 1] == CHECKED_EVENTS[..k - 1];
      CheckedStep(k - 1);
    }
  }

  lemma CheckedStart()
    ensures Init(CHECKED_JOB) == CheckedAfter(0)
  {
  }

  lemma CheckedStep(k: nat)
    requires k < 9
    ensures CHECKED_JOB.Valid() && Enabled(CheckedAfter(k), CHECKED_EVENTS[k])
    ensures Next(CheckedAfter(k), CHECKED_JOB, CHECKED_EVENTS[k]) == CheckedAfter(k + 1)
  {
    hide Next, Enabled, CheckedAfter;
    match k
    case 0 => Checked0();
    case 1 => Checked1();
    case 2 => Checked2();
    case 3 => Checked3();
    case 4 => Checked4();
    case 5 => Checked5();
    case 6 => Checked6();
    case 7 => Checked7();
    case _ => Checked8();
  }

  lemma CheckedHeader()
    ensures CHECKED_JOB.Valid() && Header(CHECKED_JOB) == CHECKED_HEADER
  {
  }

  lemma CheckedFields()
    ensures Fields(CHECKED_HEADER[2..], 3) == 3 && FirstField(CHECKED_HEADER[2..]) == [0x61]
  {
    hide Strnlen;
    var s, t: seq<Byte> := CHECKED_HEADER[2..], [0x32, 0x00, 0x32, 0x37, 0x39, 0x46, 0x42, 0x46, 0x37, 0x44, 0x00];
    assert s[2..] == t;
    StrnlenIs(s, 1);
    StrnlenIs(t, 1);
    assert t[2..] == [0x32, 0x37, 0x39, 0x46, 0x42, 0x46, 0x37, 0x44, 0x00];
    StrnlenIs(t[2..], 8);
    assert t[2..][9..] == [];
  }

  lemma Checked0()
    ensures CHECKED_JOB.Valid() && Enabled(CheckedAfter(0), DownReadable(2))
    ensures Next(CheckedAfter(0), CHECKED_JOB, DownReadable(2)) == CheckedAfter(1)
  {
    hide Next, Enabled, DownDrain, DownData;
    var d := CheckedAfter(0).down.(rbuf := [0x05, 0x01]);
    CheckedMessage0();
    DownTakes(d, CHECKED_JOB, [0x05, 0x01], []);
    DownRests(CheckedAfter(1).down, CHECKED_JOB);
    DownReads(CheckedAfter(0), CHECKED_JOB, [0x05, 0x01], [], CheckedAfter(1).down);
  }

  lemma CheckedMessage0()
    ensures var d := CheckedAfter(0).down.(rbuf := [0x05, 0x01]);
            && CHECKED_JOB.Valid() && Framed([0x05, 0x01], d.Extra())
            && DownData(d, CHECKED_JOB, [0x05, 0x01]) == CheckedAfter(1).down.(rbuf := [0x05, 0x01])
  {
  }

  lemma Checked1()
    ensures CHECKED_JOB.Valid() && Enabled(CheckedAfter(1), UpReadable(2, 2))
    ensures Next(CheckedAfter(1), CHECKED_JOB, UpReadable(2, 2)) == CheckedAfter(2)
  {
    hide Next, Enabled, UpDrain, UpData;
    var u := CheckedAfter(1).up.(rbuf := [0x06, 0x01]);
    CheckedMessage1();
    UpTakes(u, CHECKED_JOB, [0x06, 0x01], 2);
    UpReads(CheckedAfter(1), CHECKED_JOB, [0x06, 0x01], 2, CheckedAfter(2).up);
  }

  lemma CheckedMessage1()
    ensures var u := CheckedAfter(1).up.(rbuf := [0x06, 0x01]);
            CHECKED_JOB.Valid() && UpData(u, CHECKED_JOB, [0x06, 0x01], 2) == CheckedAfter(2).up.(rbuf := [0x06, 0x01])
  {
    hide Header;
    CheckedHeader();
  }

  lemma Checked2()
    ensures CHECKED_JOB.Valid() && Enabled(CheckedAfter(2), DownReadable(15))
    ensures Next(CheckedAfter(2), CHECKED_JOB, DownReadable(15)) == CheckedAfter(3)
  {
    hide Next, Enabled, DownDrain, DownData;
    var d := CheckedAfter(2).down.(rbuf := CHECKED_HEADER);
    CheckedMessage2();
    DownTakes(d, CHECKED_JOB, CHECKED_HEADER, []);
    DownRests(CheckedAfter(3).down, CHECKED_JOB);
    DownReads(CheckedAfter(2), CHECKED_JOB, CHECKED_HEADER, [], CheckedAfter(3).down);
  }

  lemma CheckedMessage2()
    ensures var d := CheckedAfter(2).down.(rbuf := CHECKED_HEADER);
            && CHECKED_JOB.Valid() && Framed(CHECKED_HEADER, d.Extra())
            && DownData(d, CHECKED_JOB, CHECKED_HEADER) == CheckedAfter(3).down.(rbuf := CHECKED_HEADER)
  {
    hide Fields, FirstField;
    CheckedFields();
  }

  lemma Checked3()
    ensures CHECKED_JOB.Valid() && Enabled(CheckedAfter(3), UpReadable(2, 2))
    ensures Next(CheckedAfter(3), CHECKED_JOB, UpReadable(2, 2)) == CheckedAfter(4)
  {
    hide Next, Enabled, UpDrain, UpData;
    var u := CheckedAfter(3).up.(rbuf := [0x06, 0x06]);
    CheckedMessage3();
    UpTakes(u, CHECKED_JOB, [0x06, 0x06], 2);
    UpReads(CheckedAfter(3), CHECKED_JOB, [0x06, 0x06], 2, CheckedAfter(4).up);
  }

  lemma CheckedMessage3()
    ensures var u := CheckedAfter(3).up.(rbuf := [0x06, 0x06]);
            CHECKED_JOB.Valid() && UpData(u, CHECKED_JOB, [0x06, 0x06], 2) == CheckedAfter(4).up.(rbuf := [0x06, 0x06])
  {
    hide Sum;
    SumOfFile();
    assert [0x68, 0x69][..2] == [0x68, 0x69] && [0x68, 0x69][2..] == [];
  }

  lemma Checked4()
    ensures CHECKED_JOB.Valid() && Enabled(CheckedAfter(4), UpWritable(3, 0))
    ensures Next(CheckedAfter(4), CHECKED_JOB, UpWritable(3, 0)) == CheckedAfter(5)
  {
  }

  lemma Checked5()
    ensures CHECKED_JOB.Valid() && Enabled(CheckedAfter(5), DownReadable(7))
    ensures Next(CheckedAfter(5), CHECKED_JOB, DownReadable(7)) == CheckedAfter(6)
  {
    hide Next, Enabled, DownDrain, DownData;
    var d := CheckedAfter(5).down.(rbuf := [0x02, 0x02, 0x68, 0x69, 0xd1, 0x03, 0x01]);
    CheckedBlock();
    CheckedEnd();
    var e := CheckedAfter(5).down.(total := 2, disk := [0x68, 0x69]);
    assert [0x02, 0x02, 0x68, 0x69, 0xd1] + [0x03, 0x01] == [0x02, 0x02, 0x68, 0x69, 0xd1, 0x03, 0x01];
    DownTakes(d, CHECKED_JOB, [0x02, 0x02, 0x68, 0x69, 0xd1], [0x03, 0x01]);
    DownTakes(e.(rbuf := [0x03, 0x01]), CHECKED_JOB, [0x03, 0x01], []);
    DownRests(CheckedAfter(6).down, CHECKED_JOB);
    DownReads(CheckedAfter(5), CHECKED_JOB, [0x02, 0x02, 0x68, 0x69, 0xd1, 0x03, 0x01], [], CheckedAfter(6).down);
  }

  lemma CheckedBlock()
    ensures var d := CheckedAfter(5).down.(rbuf := [0x02, 0x02, 0x68, 0x69, 0xd1, 0x03, 0x01]);
            && CHECKED_JOB.Valid() && Framed([0x02, 0x02, 0x68, 0x69, 0xd1], d.Extra())
            && DownData(d, CHECKED_JOB, [0x02, 0x02, 0x68, 0x69, 0xd1]) == d.(total := 2, disk := [0x68, 0x69])
  {
    hide Sum;
    SumOfFile();
    assert [0x02, 0x02, 0x68, 0x69, 0xd1][2..4] == [0x68, 0x69];
  }

  lemma CheckedEnd()
    ensures var e := CheckedAfter(5).down.(total := 2, disk := [0x68, 0x69], rbuf := [0x03, 0x01]);
            && CHECKED_JOB.Valid() && Framed([0x03, 0x01], e.Extra())
            && DownData(e, CHECKED_JOB, [0x03, 0x01]) == CheckedAfter(6).down.(rbuf := [0x03, 0x01])
  {
  }

  lemma Checked6()
    ensures CHECKED_JOB.Valid() && Enabled(CheckedAfter(6), UpReadable(2, 0))
    ensures Next(CheckedAfter(6), CHECKED_JOB, UpReadable(2, 0)) == CheckedAfter(7)
  {
    hide Next, Enabled, UpDrain, UpData;
    var u := CheckedAfter(6).up.(rbuf := [0x06, 0x03]);
    CheckedMessage6();
    UpTakes(u, CHECKED_JOB, [0x06, 0x03], 0);
    UpReads(CheckedAfter(6), CHECKED_JOB, [0x06, 0x03], 0, CheckedAfter(7).up);
  }

  lemma CheckedMessage6()
    ensures var u := CheckedAfter(6).up.(rbuf := [0x06, 0x03]);
            CHECKED_JOB.Valid() && UpData(u, CHECKED_JOB, [0x06, 0x03], 0) == CheckedAfter(7).up.(rbuf := [0x06, 0x03])
  {
  }

  lemma Checked7()
    ensures CHECKED_JOB.Valid() && Enabled(CheckedAfter(7), DownReadable(2))
    ensures Next(CheckedAfter(7), CHECKED_JOB, DownReadable(2)) == CheckedAfter(8)
  {
    hide Next, Enabled, DownDrain, DownData;
    var d := CheckedAfter(7).down.(rbuf := [0x04, 0x01]);
    CheckedMessage7();
    DownTakes(d, CHECKED_JOB, [0x04, 0x01], []);
    DownReads(CheckedAfter(7), CHECKED_JOB, [0x04, 0x01], [], CheckedAfter(8).down);
  }

  lemma CheckedMessage7()
    ensures var d := CheckedAfter(7).down.(rbuf := [0x04, 0x01]);
            && CHECKED_JOB.Valid() && Framed([0x04, 0x01], d.Extra())
            && DownData(d, CHECKED_JOB, [0x04, 0x01]) == CheckedAfter(8).down.(rbuf := [0x04, 0x01])
  {
  }

  lemma Checked8()
    ensures CHECKED_JOB.Valid() && Enabled(CheckedAfter(8), UpReadable(2, 0))
    ensures Next(CheckedAfter(8), CHECKED_JOB, UpReadable(2, 0)) == CheckedAfter(9)
  {
    hide Next, Enabled, UpDrain, UpData;
    var u := CheckedAfter(8).up.(rbuf := [0x06, 0x04]);
    CheckedMessage8();
    UpTakes(u, CHECKED_JOB, [0x06, 0x04], 0);
    UpReads(CheckedAfter(8), CHECKED_JOB, [0x06, 0x04], 0, CheckedAfter(9).up);
  }

  lemma CheckedMessage8()
    ensures var u := CheckedAfter(8).up.(rbuf := [0x06, 0x04]);
            CHECKED_JOB.Valid() && UpData(u, CHECKED_JOB, [0x06, 0x04], 0) == CheckedAfter(9).up.(rbuf := [0x06, 0x04])
  {
  }
}
