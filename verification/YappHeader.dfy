/**
 What a YAPP header says: its fields one by one, and the file that the receiver opens for it.
 */
module YappHeader {
  import opened Yapp
  import opened YappSafety
  import opened YappCut

  datatype Field = Missing | Field(text: seq<Byte>)

  /** The i-th of the fields that NULs terminate. */
  function FieldAt(s: seq<Byte>, i: nat): Field
    decreases i
  {
    var h := Strnlen(s);
    if h == |s| then Missing else if i == 0 then Field(s[..h]) else FieldAt(s[h + 1..], i - 1)
  }

  lemma FieldStep(s: seq<Byte>, t: seq<Byte>, i: nat)
    requires 0 !in s
    ensures FieldAt(s + [0] + t, i) == if i == 0 then Field(s) else FieldAt(t, i - 1)
  {
    hide Strnlen;
    StrnlenIs(s, t);
    assert (s + [0] + t)[..|s|] == s && (s + [0] + t)[|s| + 1..] == t;
  }

  lemma NoField(i: nat)
    ensures FieldAt([], i) == Missing
  {
  }

  /** The room the header leaves for the name: all but the NULs, the size and the time stamp. */
  function Others(j: Job): nat {
    1 + |j.size| + 1 + (if j.stamp.Stamp? then 8 + 1 else 0)
  }

  /** The octets behind the code and the length are the fields in their order: the longest front
      of the file name with which the header has at most 255 octets, the size, the time stamp. */
  lemma HeaderSays(j: Job)
    requires j.Valid()
    ensures var m := Header(j); var s := m[2..]; var name := FieldAt(s, 0);
            && |m| >= 2 && m[0] == 0x01 && m[1] == |s|
            && name.Field? && name.text <= j.name && |name.text| + Others(j) == |s| <= 255
            && (name.text == j.name || |s| == 255)
            && FieldAt(s, 1) == Field(j.size)
            && FieldAt(s, 2) == (if j.stamp.Stamp? then Field(j.stamp.hex) else Missing)
            && FieldAt(s, 3) == Missing
  {
    var name, s := SentName(j), HeaderFields(j);
    var third := if j.stamp.Stamp? then j.stamp.hex + [0] else [];
    assert Header(j)[2..] == s;
    assert 0 !in name;
    NameIsLongest(j);
    assert s == name + [0] + (j.size + [0] + third);
    ThirdIs(j.stamp, third, 0);
    ThirdIs(j.stamp, third, 1);
    hide *;
    FieldStep(name, j.size + [0] + third, 0);
    FieldStep(name, j.size + [0] + third, 1);
    FieldStep(name, j.size + [0] + third, 2);
    FieldStep(name, j.size + [0] + third, 3);
    FieldStep(j.size, third, 0);
    FieldStep(j.size, third, 1);
    FieldStep(j.size, third, 2);
  }

  lemma NameIsLongest(j: Job)
    requires j.Valid()
    ensures SentName(j) <= j.name && |SentName(j)| + Others(j) == |HeaderFields(j)| <= 255
    ensures SentName(j) == j.name || |HeaderFields(j)| == 255
  {
  }

  lemma ThirdIs(stamp: Stamp, third: seq<Byte>, i: nat)
    requires stamp.Stamp? ==> 0 !in stamp.hex
    requires third == if stamp.Stamp? then stamp.hex + [0] else []
    ensures FieldAt(third, i) == if stamp.Stamp? && i == 0 then Field(stamp.hex) else Missing
  {
    hide FieldAt;
    if stamp.Stamp? {
      assert third == stamp.hex + [0] + [];
      FieldStep(stamp.hex, [], i);
    }
    if i > 0 { NoField(i - 1); }
    NoField(i);
  }

  /** In every run of every transfer, cancelled or not, a receiver that receives into a file it
      had to open has opened the one of the first field of the header. */
  lemma OpensFirstField(j: Job, steps: seq<Step>)
    requires j.Valid()
    ensures var d := Walk(j, steps).down;
            d.state == RD && !j.hasFile ==> Field(d.filename) == FieldAt(Header(j)[2..], 0)
  {
    hide Walk, Inv, CutOff, Header, SentName, FieldAt;
    WalkCut(j, steps);
    NamedInRun(j, Walk(j, steps), steps);
    HeaderNames(j);
  }

  lemma NamedInRun(j: Job, s: Sys, steps: seq<Step>)
    requires j.Valid() && (Inv(j, s) || CutOff(j, s, steps))
    ensures Named(j, s.down)
  {
    hide Named, DownOwn, DownPhase, DownStream, UpPhase, Leftover, Cat, Messages, Half, Remains;
  }

  lemma HeaderNames(j: Job)
    requires j.Valid()
    ensures FieldAt(Header(j)[2..], 0) == Field(SentName(j))
  {
    hide Strnlen;
    NameIsFirst(j);
    assert Header(j)[2..] == HeaderFields(j);
    var rest := j.size + [0] + (if j.stamp.Stamp? then j.stamp.hex + [0] else []);
    assert HeaderFields(j) == SentName(j) + [0] + rest;
    FieldStep(SentName(j), rest, 0);
  }

  /** The resume request has three fields: R, how much there is already, and C. */
  lemma ResumeSays(j: Job)
    requires j.Valid() && 0 !in j.existingSize
    ensures var m := Resume(j); var s := m[2..];
            && |m| >= 2 && m[0] == 0x15 && m[1] == |s|
            && FieldAt(s, 0) == Field(['R' as int]) && FieldAt(s, 1) == Field(j.existingSize)
            && FieldAt(s, 2) == Field(['C' as int]) && FieldAt(s, 3) == Missing
  {
    var r: seq<Byte>, c: seq<Byte> := ['R' as int], ['C' as int];
    var s := Resume(j)[2..];
    assert s == r + [0] + (j.existingSize + [0] + (c + [0] + []));
    hide *;
    var tail := c + [0] + [];
    FieldStep(c, [], 0);
    FieldStep(c, [], 1);
    NoField(0);
    FieldStep(j.existingSize, tail, 0);
    FieldStep(j.existingSize, tail, 1);
    FieldStep(j.existingSize, tail, 2);
    FieldStep(r, j.existingSize + [0] + tail, 0);
    FieldStep(r, j.existingSize + [0] + tail, 1);
    FieldStep(r, j.existingSize + [0] + tail, 2);
    FieldStep(r, j.existingSize + [0] + tail, 3);
  }

  // ----- refusals

  /** A text as octets. */
  function Ascii(s: string): (r: seq<Byte>)
    requires forall i | 0 <= i < |s| :: s[i] as int < 128
    ensures |r| == |s| && forall i | 0 <= i < |s| :: r[i] == s[i] as int
  {
    seq(|s|, i requires 0 <= i < |s| => s[i] as int as Byte)
  }

  lemma Texts()
    ensures UNKNOWN_CODE == Ascii("Unknown code") && BAD_CHECKSUM == Ascii("Bad Checksum")
    ensures INVALID_HEADER == Ascii("Invalid header") && INVALID_FILENAME == Ascii("Invalid filename")
  {
  }

  /** An uploader that gives up says nothing if the other side has cancelled (0x18) or refused
      (0x15), and sends a cancellation with its reason if it was sent something else it does not
      expect. */
  lemma UploaderSays(u: Up, j: Job, msg: seq<Byte>, pick: nat)
    requires j.Valid() && |msg| >= 2 && u.status == Running && UpData(u, j, msg, pick).status.Aborted?
    ensures UpData(u, j, msg, pick).tx ==
            u.tx + if msg[0] == 0x18 || msg[0] == 0x15 then [] else [0x18, 12] + Ascii("Unknown code")
  {
    hide Header, FillBlock;
    Texts();
    FilledRuns(u, j.readlen, pick);
    FilledRuns(u.(yappc := true), j.readlen, pick);
  }

  lemma FilledRuns(u: Up, readlen: nat, pick: nat)
    requires readlen <= 253
    ensures FillBlock(u, readlen, pick).status == u.status
  {
    hide Sum, ReadCount;
  }

  /** The reasons of a downloader: a cancellation for an unknown code or a checksum that is wrong,
      a refusal for a header without two fields or a file that cannot be opened. */
  lemma DownloaderSays(d: Down, j: Job, msg: seq<Byte>)
    requires j.Valid() && d.status == Running && Framed(msg, d.Extra()) && DownData(d, j, msg).status.Aborted?
    ensures var e := DownData(d, j, msg);
            e.tx == d.tx + match e.status.why
                           case UnknownCode => [0x18, 12] + Ascii("Unknown code")
                           case BadChecksum => [0x18, 12] + Ascii("Bad Checksum")
                           case InvalidHeader => [0x15, 14] + Ascii("Invalid header")
                           case OpenFailed => [0x15, 16] + Ascii("Invalid filename")
                           case _ => []
    ensures DownData(d, j, msg).status.why == PeerAbort <==> msg[0] == 0x18 || msg[0] == 0x15
  {
    hide Fields, FirstField, Sum;
    Texts();
  }

  // ----- what this program never sends itself, but takes from others

  /** A receiver that answers the invitation with 06 02 skips the header: the uploader goes on with
      the first block, without checksums. */
  lemma HeaderSkipped(u: Up, j: Job, pick: nat)
    requires j.Valid() && u.state == S && !u.yappc
    ensures var n := ReadCount(u.unread, j.readlen, pick);
            var v := UpData(u, j, [0x06, 0x02], pick);
            && v.status == u.status && v.state == SD && !v.yappc
            && v.out + v.unread == u.unread && |v.out| == n
            && v.tx == u.tx + if n > 0 then [0x02, n] else []
  {
    hide ReadCount, Sum;
    var n := ReadCount(u.unread, j.readlen, pick);
    var msg: seq<Byte> := [0x06, 0x02];
    assert msg[..2] == msg == Ack(2) && msg[1] != Ack(1)[1];
    assert UpData(u, j, msg, pick) == FillBlock(u, j.readlen, pick).(state := SD);
    assert u.unread[..n] + [] == u.unread[..n];
    assert u.unread[..n] + u.unread[n..] == u.unread;
  }

  /** Before a header the downloader ignores a repeated invitation, and lets an uploader with no
      more files go. */
  lemma BetweenFiles(d: Down, j: Job)
    requires j.Valid() && d.state == RH
    ensures DownData(d, j, [0x05, 0x01]) == d
    ensures DownData(d, j, [0x04, 0x01]) == d.(tx := d.tx + [0x06, 0x04], status := Finished)
  {
  }
}
