/**
 YAPP when the uploader is cancelled while a block is half sent: the downloader takes the
 cancellation for the rest of the block. What then remains, in every run of every transfer: a
 prefix of the file and, behind it, octets of the cancellation for those of the block unsent; and
 never is the transfer of a spoiled file finished. Exactly when a cut spoils the file.
 */
module YappCut {
  import opened Yapp
  import opened YappSafety
  import opened YappOutcome

  /** The texts the uploader gives when a user cancels and when select fails. */
  const CANCELLED: Text := [0x43, 0x61, 0x6e, 0x63, 0x65, 0x6c, 0x6c, 0x65, 0x64, 0x20, 0x62, 0x79, 0x20, 0x75, 0x73, 0x65, 0x72]
  const INTERNAL: Text := [0x49, 0x6e, 0x74, 0x65, 0x72, 0x6e, 0x61, 0x6c, 0x20, 0x65, 0x72, 0x72, 0x6f, 0x72]

  /** A text of which no part can be taken for a block or for the end of file. */
  predicate Inert(reason: Text) {
    var told := [|reason|] + reason;
    forall i | 0 <= i < |told| :: told[i] != STX && told[i] != ETX
  }

  lemma ReasonsAreInert()
    ensures Inert(CANCELLED) && Inert(INTERNAL)
  {
  }

  /** An event of Yapp, or a cancellation with part of a block still in the output buffer. */
  datatype Step = Plain(e: Event) | Cut(reason: Text)

  predicate Possible(s: Sys, step: Step) {
    match step
    case Plain(e) => Enabled(s, e)
    case Cut(reason) => s.up.status == Running && s.up.state == SD && s.up.out != [] && Inert(reason)
  }

  function Take(s: Sys, j: Job, step: Step): Sys
    requires j.Valid() && Possible(s, step)
  {
    match step
    case Plain(e) => Next(s, j, e)
    case Cut(reason) => s.(up := s.up.Fail(Local, Cancel(reason)))
  }

  function Walk(j: Job, steps: seq<Step>): Sys
    requires j.Valid()
  {
    if steps == [] then Init(j)
    else
      var s, step := Walk(j, steps[..|steps| - 1]), steps[|steps| - 1];
      if Possible(s, step) then Take(s, j, step) else s
  }

  predicate HasCut(steps: seq<Step>) {
    exists i | 0 <= i < |steps| :: steps[i].Cut?
  }

  // ----- what remains

  /** The octets of the file left in the output buffer, its checksum not counted. */
  function Unsent(u: Up): int {
    |u.out| - (if u.yappc then 1 else 0)
  }

  /** The old contents, a prefix of the file, and the first m octets of a cancellation. */
  ghost predicate Remains(j: Job, disk: seq<Byte>, n: nat, m: nat, reason: Text) {
    n <= |j.file| && m <= |reason| + 2 && disk == j.existing + j.file[..n] + Cancel(reason)[..m]
  }

  /** Octets of a cancellation stand for as many octets of the file as were unsent. */
  predicate Told(s: Sys, steps: seq<Step>, m: nat, reason: Text) {
    m > 0 ==> s.up.status != Running && m == Unsent(s.up) && Cut(reason) in steps
  }

  /** The front of a block message: its announcement and the first k octets of its data. */
  function Part(data: seq<Byte>, k: nat): seq<Byte>
    requires 1 <= |data| <= 253 && k <= |data|
  {
    [STX, |data|] + data[..k]
  }

  /** Whole blocks are on their way, then the front of one, then the cancellation. */
  ghost predicate HalfSent(j: Job, d: Down, tx: seq<Byte>, ds: seq<seq<Byte>>, data: seq<Byte>, k: nat, reason: Text) {
    && Inert(reason) && Readable(ds)
    && 1 <= |data| <= 253 && k <= |data| && (k == |data| ==> j.Checked())
    && d.yappc == j.Checked()
    && d.rbuf + tx == Cat(Blocks(j, ds)) + (Part(data, k) + Cancel(reason))
    && j.existing <= d.disk && d.disk + Cat(ds) + data <= Whole(j)
  }

  /** Nothing on the way to the downloader begins like a block or an end of file. */
  predicate Quiet(stream: seq<Byte>) {
    stream != [] ==> stream[0] != STX && stream[0] != ETX
  }

  /** A stray checksum octet of no data comes first, and no data will be sent. */
  predicate Stray(s: Sys) {
    && s.up.unread == [] && s.up.state != S && s.up.state != SH
    && (s.up.state == SD ==> s.up.yappc && |s.up.out| <= 1)
    && s.down.rbuf + s.up.tx + s.up.out != [] && Quiet(s.down.rbuf + s.up.tx + s.up.out)
  }

  ghost predicate HalfOf(j: Job, s: Sys, steps: seq<Step>, ds: seq<seq<Byte>>, data: seq<Byte>, k: nat, reason: Text) {
    HalfSent(j, s.down, s.up.tx, ds, data, k, reason) && |data| - k == Unsent(s.up) && Cut(reason) in steps
  }

  ghost predicate Half(j: Job, s: Sys, steps: seq<Step>) {
    exists ds, data, k, reason: Text :: HalfOf(j, s, steps, ds, data, k, reason)
  }

  /** A downloader that is cut off: it has what remains, and gets no more than one block on. */
  ghost predicate CutOff(j: Job, s: Sys, steps: seq<Step>)
    requires j.Valid()
  {
    && s.down.status != Finished && Named(j, s.down)
    && (exists n, m, reason: Text :: Remains(j, s.down.disk, n, m, reason) && Told(s, steps, m, reason))
    && (s.down.status == Running ==>
          && s.down.state == RD
          && if s.up.status == Running then Stray(s) else Quiet(s.down.rbuf + s.up.tx) || Half(j, s, steps))
  }

  ghost predicate CutInv(j: Job, s: Sys, steps: seq<Step>)
    requires j.Valid()
  {
    Inv(j, s) || CutOff(j, s, steps)
  }

  lemma PrefixRemains(j: Job, disk: seq<Byte>)
    requires j.existing <= disk <= Whole(j)
    ensures Remains(j, disk, |disk| - |j.existing|, 0, CANCELLED)
  {
  }

  // ----- the cut

  /** What has been sent when a block is cut: whole blocks and the front of the last. */
  lemma LastBlockSplit(j: Job, ds: seq<seq<Byte>>, sent: seq<Byte>, out: seq<Byte>) returns (k: nat)
    requires Readable(ds) && ds != [] && sent + out == Cat(Blocks(j, ds))
    requires 0 < |out| <= |ds[|ds| - 1]| + (if j.Checked() then 1 else 0)
    ensures var init, last := ds[..|ds| - 1], ds[|ds| - 1];
            && k <= |last| && (k == |last| ==> j.Checked())
            && sent == Cat(Blocks(j, init)) + Part(last, k)
            && out == last[k..] + (if j.Checked() then [Sum(last)] else [])
  {
    hide Cat, Sum;
    var init, last := ds[..|ds| - 1], ds[|ds| - 1];
    var check := if j.Checked() then [Sum(last)] else [];
    k := |last| + |check| - |out|;
    assert Blocks(j, ds) == Blocks(j, init) + [Block(j, last)];
    CatAppend(Blocks(j, init), Block(j, last));
    TailOfBlock(Cat(Blocks(j, init)), last, check, sent, out, k);
  }

  lemma TailOfBlock(a: seq<Byte>, last: seq<Byte>, check: seq<Byte>, sent: seq<Byte>, out: seq<Byte>, k: nat)
    requires 1 <= |last| <= 253 && |check| <= 1
    requires sent + out == a + ([STX, |last|] + last + check)
    requires k == |last| + |check| - |out| && k <= |last|
    ensures sent == a + Part(last, k) && out == last[k..] + check
  {
    var all := a + ([STX, |last|] + last + check);
    assert sent == all[..|sent|] && out == all[|sent|..];
    assert |sent| == |a| + 2 + k;
    assert all == (a + Part(last, k)) + (last[k..] + check);
  }

  lemma CutKeeps(j: Job, s: Sys, steps: seq<Step>, reason: Text)
    requires j.Valid() && Inv(j, s) && Possible(s, Cut(reason)) && Cut(reason) in steps
    ensures CutOff(j, Take(s, j, Cut(reason)), steps)
  {
    hide Cat, Messages, UpPhase, Leftover, Inert, HalfOf, Quiet, Remains, Block;
    var ds, core, toUp :| InvWith(j, s, ds, core, toUp);
    var t := Take(s, j, Cut(reason));
    PrefixRemains(j, s.down.disk);
    assert t.up.status != Running;
    if s.down.status == Running {
      var k := HalfOnTheWay(j, s, steps, reason, ds);
    }
  }

  lemma HalfOnTheWay(j: Job, s: Sys, steps: seq<Step>, reason: Text, ds: seq<seq<Byte>>) returns (k: nat)
    requires j.Valid() && Readable(ds) && DownOwn(j, s.down) && s.down.yappc == s.up.yappc == j.Checked()
    requires Possible(s, Cut(reason)) && Cut(reason) in steps && OutIsTail(j, s.up, ds)
    requires s.down.rbuf + s.up.tx + s.up.out == Cat(Blocks(j, ds)) && s.down.disk + Cat(ds) + s.up.unread == Whole(j)
    ensures ds != [] && k <= |ds[|ds| - 1]|
    ensures s.up.out == ds[|ds| - 1][k..] + (if j.Checked() then [Sum(ds[|ds| - 1])] else [])
    ensures HalfOf(j, Take(s, j, Cut(reason)), steps, ds[..|ds| - 1], ds[|ds| - 1], k, reason)
    ensures Half(j, Take(s, j, Cut(reason)), steps)
  {
    hide Cat, Inert, Sum, Cancel, Part;
    var init, last := ds[..|ds| - 1], ds[|ds| - 1];
    k := LastBlockSplit(j, ds, s.down.rbuf + s.up.tx, s.up.out);
    assert ds == init + [last];
    CatAppend(init, last);
    LongerPrefix(s.down.disk + Cat(init) + last, s.up.unread, Whole(j));
    var c := Cancel(reason);
    Associate(s.down.rbuf, s.up.tx, c);
    Associate(Cat(Blocks(j, init)), Part(last, k), c);
  }

  lemma LongerPrefix(a: seq<Byte>, b: seq<Byte>, w: seq<Byte>)
    requires a + b == w
    ensures a <= w
  {
  }

  // ----- the downloader behind a cut

  /** Re-framing finds the first message of a stream. */
  lemma FrontIs(rbuf: seq<Byte>, rest: seq<Byte>, m: seq<Byte>, tail: seq<Byte>, extra: nat)
    requires rbuf + rest == m + tail && IsMessage(m, extra) && Complete(rbuf, extra) > 0
    ensures Complete(rbuf, extra) == |m| && rbuf[..|m|] == m && rbuf[|m|..] + rest == tail
  {
    var all := rbuf + rest;
    assert all[0] == rbuf[0] == m[0] && all[1] == rbuf[1] == m[1];
    assert all[..|m|] == m && all[|m|..] == tail;
    assert rbuf[..|m|] == all[..|m|] && rbuf[|m|..] + rest == all[|m|..];
  }

  /** A message that is neither block nor end of file ends the download. */
  lemma QuietStep(d: Down, j: Job)
    requires j.Valid() && d.status == Running && d.state == RD && Complete(d.rbuf, d.Extra()) > 0
    requires d.rbuf[0] != STX && d.rbuf[0] != ETX
    ensures var e := DownStep(d, j); e.status.Aborted? && e == d.(status := e.status, tx := e.tx)
  {
  }

  /** A message that begins like a block is one, or fails its checksum. */
  lemma BlockStep(d: Down, j: Job)
    requires j.Valid() && d.status == Running && d.state == RD && Complete(d.rbuf, d.Extra()) > 0
    requires d.rbuf[0] == STX && 1 <= d.rbuf[1]
    ensures var e, n: nat := DownStep(d, j), d.rbuf[1];
            && Complete(d.rbuf, d.Extra()) == n + 2 + d.Extra()
            && if d.yappc && Sum(d.rbuf[2..n + 2]) != d.rbuf[n + 2] then
                 e == d.(status := Aborted(BadChecksum), total := e.total, tx := e.tx)
               else
                 e == d.(total := e.total, disk := d.disk + d.rbuf[2..n + 2], rbuf := d.rbuf[n + 2 + d.Extra()..])
  {
    hide Sum;
    var n: nat := d.rbuf[1];
    SliceOfFront(d.rbuf, 2, n + 2, n + 2 + d.Extra());
  }

  lemma SliceOfFront(s: seq<Byte>, from: nat, to: nat, k: nat)
    requires from <= to <= k <= |s|
    ensures s[..k][from..to] == s[from..to]
  {
  }

  lemma NextWhole(j: Job, d: Down, tx: seq<Byte>, ds: seq<seq<Byte>>, data: seq<Byte>, k: nat, reason: Text)
    requires j.Valid() && HalfSent(j, d, tx, ds, data, k, reason) && ds != []
    requires d.status == Running && d.state == RD && Complete(d.rbuf, d.Extra()) > 0
    ensures var e := DownStep(d, j);
            && e.status == Running && e.state == RD && e.filename == d.filename && e.disk == d.disk + ds[0]
            && HalfSent(j, e, tx, ds[1..], data, k, reason)
  {
    hide Block, DownData, Inert, Part, Cancel, Cat, Whole;
    var end := Part(data, k) + Cancel(reason);
    BlockMessage(j, ds[0], d.Extra());
    FirstBlock(j, ds, end);
    FrontIs(d.rbuf, tx, Block(j, ds[0]), Cat(Blocks(j, ds[1..])) + end, d.Extra());
    BlockAccepted(d, j, ds[0]);
    Associate(d.disk, ds[0], Cat(ds[1..]));
  }

  lemma FirstBlock(j: Job, ds: seq<seq<Byte>>, rest: seq<Byte>)
    requires Readable(ds) && ds != []
    ensures Cat(Blocks(j, ds)) + rest == Block(j, ds[0]) + (Cat(Blocks(j, ds[1..])) + rest)
    ensures Cat(ds) == ds[0] + Cat(ds[1..])
  {
    hide Block, Cat, Blocks;
    var bs := Blocks(j, ds);
    assert bs[1..] == Blocks(j, ds[1..]);
    CatUnfold(bs);
    CatUnfold(ds);
    Associate(bs[0], Cat(bs[1..]), rest);
  }

  lemma Associate(a: seq<Byte>, b: seq<Byte>, c: seq<Byte>)
    ensures a + b + c == a + (b + c)
  {
  }

  /** The cancellation is long enough for the rest of a block, and fits its checksum if it has one. */
  predicate Completes(j: Job, data: seq<Byte>, k: nat, reason: Text)
    requires k <= |data|
  {
    var c, m := Cancel(reason), |data| - k;
    if j.Checked() then m < |c| && Sum(data[..k] + c[..m]) == c[m] else m <= |c|
  }

  /** What the cut block adds to the disk. */
  function Added(j: Job, data: seq<Byte>, k: nat, reason: Text): seq<Byte>
    requires k <= |data|
  {
    if Completes(j, data, k, reason) then data[..k] + Cancel(reason)[..|data| - k] else []
  }

  lemma NoBlocks(j: Job, d: Down, tx: seq<Byte>, data: seq<Byte>, k: nat, reason: Text)
    requires HalfSent(j, d, tx, [], data, k, reason)
    ensures 1 <= |data| <= 253 && k <= |data| && (k == |data| ==> j.Checked()) && d.yappc == j.Checked() && Inert(reason)
    ensures d.rbuf + tx == Part(data, k) + Cancel(reason) && j.existing <= d.disk && d.disk + data <= Whole(j)
  {
    hide Part, Cancel;
    assert Blocks(j, []) == [];
    CatEmpty();
    assert [] + (Part(data, k) + Cancel(reason)) == Part(data, k) + Cancel(reason);
    assert d.disk + [] == d.disk;
  }

  /** The block message that the front of a block and a cancellation make up. */
  lemma Spliced(data: seq<Byte>, k: nat, reason: Text)
    requires 1 <= |data| <= 253 && k <= |data| && |data| - k <= |Cancel(reason)|
    ensures var stream, m, n := Part(data, k) + Cancel(reason), |data| - k, |data|;
            && |stream| == n + 2 + |Cancel(reason)| - m
            && stream[0] == STX && stream[1] == n && stream[2..n + 2] == data[..k] + Cancel(reason)[..m]
            && (m < |Cancel(reason)| ==> stream[n + 2] == Cancel(reason)[m])
  {
    hide Cancel;
  }

  /** What follows the cancellation code is quiet. */
  lemma BehindCancel(front: seq<Byte>, reason: Text, k: nat)
    requires Inert(reason) && |front| < k <= |front| + |Cancel(reason)|
    ensures Quiet((front + Cancel(reason))[k..])
  {
    var told := [|reason|] + reason;
    if k < |front| + |Cancel(reason)| {
      assert (front + Cancel(reason))[k] == Cancel(reason)[k - |front|] == told[k - |front| - 1];
    }
  }

  lemma RestIs(a: seq<Byte>, b: seq<Byte>, k: nat, stream: seq<Byte>)
    requires a + b == stream && k <= |a|
    ensures a[k..] + b == stream[k..]
  {
  }

  lemma SameFront(a: seq<Byte>, b: seq<Byte>, stream: seq<Byte>, from: nat, to: nat)
    requires a + b == stream && from <= to <= |a|
    ensures a[from..to] == stream[from..to]
  {
  }

  lemma ReadsSpliced(j: Job, d: Down, tx: seq<Byte>, data: seq<Byte>, k: nat, reason: Text)
    requires j.Valid() && HalfSent(j, d, tx, [], data, k, reason)
    requires d.status == Running && d.state == RD && Complete(d.rbuf, d.Extra()) > 0
    ensures |d.rbuf| >= |data| + 2 + d.Extra() && |data| - k + d.Extra() <= |Cancel(reason)|
    ensures d.rbuf[0] == STX && d.rbuf[1] == |data|
    ensures d.rbuf[2..|data| + 2] == data[..k] + Cancel(reason)[..|data| - k]
    ensures d.yappc ==> d.rbuf[|data| + 2] == Cancel(reason)[|data| - k]
  {
    hide Cancel, HalfSent;
    NoBlocks(j, d, tx, data, k, reason);
    SplicedStarts(j, d, tx, data, k, reason);
    Spliced(data, k, reason);
    SameFront(d.rbuf, tx, Part(data, k) + Cancel(reason), 2, |data| + 2);
  }

  lemma SplicedStarts(j: Job, d: Down, tx: seq<Byte>, data: seq<Byte>, k: nat, reason: Text)
    requires 1 <= |data| <= 253 && k <= |data| && d.rbuf + tx == Part(data, k) + Cancel(reason)
    requires Complete(d.rbuf, d.Extra()) > 0
    ensures |d.rbuf| >= |data| + 2 + d.Extra() && |data| - k + d.Extra() <= |Cancel(reason)|
    ensures d.rbuf[0] == STX && d.rbuf[1] == |data|
  {
    hide Cancel;
    var stream := d.rbuf + tx;
    assert stream[0] == d.rbuf[0] && stream[1] == d.rbuf[1];
  }

  /** The block that was cut, completed by the cancellation. */
  lemma CutBlock(j: Job, d: Down, tx: seq<Byte>, data: seq<Byte>, k: nat, reason: Text)
    requires j.Valid() && HalfSent(j, d, tx, [], data, k, reason)
    requires d.status == Running && d.state == RD && Complete(d.rbuf, d.Extra()) > 0
    ensures var e := DownStep(d, j);
            && e.status != Finished && e.disk == d.disk + Added(j, data, k, reason)
            && e.state == d.state && e.filename == d.filename
            && (e.status == Running <==> Completes(j, data, k, reason))
            && (e.status == Running ==> e.state == RD && Quiet(e.rbuf + tx))
  {
    hide Blocks, DownStep, Inert, Complete, Cancel, Quiet, Part, Sum, HalfSent, Completes, Added;
    NoBlocks(j, d, tx, data, k, reason);
    ReadsSpliced(j, d, tx, data, k, reason);
    BlockStep(d, j);
    CompletesIs(j, data, k, reason);
    if Completes(j, data, k, reason) {
      var n := |data| + 2 + d.Extra();
      PartLength(data, k);
      RestIs(d.rbuf, tx, n, Part(data, k) + Cancel(reason));
      BehindCancel(Part(data, k), reason, n);
    } else {
      assert d.disk + [] == d.disk;
    }
  }

  lemma CompletesIs(j: Job, data: seq<Byte>, k: nat, reason: Text)
    requires k <= |data| && |data| - k + (if j.Checked() then 1 else 0) <= |Cancel(reason)|
    ensures var c, m := Cancel(reason), |data| - k;
            && (Completes(j, data, k, reason) <==> (j.Checked() ==> Sum(data[..k] + c[..m]) == c[m]))
            && Added(j, data, k, reason) == if Completes(j, data, k, reason) then data[..k] + c[..m] else []
  {
    hide Cancel, Sum;
  }

  lemma PartLength(data: seq<Byte>, k: nat)
    requires 1 <= |data| <= 253 && k <= |data|
    ensures |Part(data, k)| == k + 2
  {
  }

  lemma AddedRemains(j: Job, disk: seq<Byte>, data: seq<Byte>, k: nat, reason: Text)
    requires j.existing <= disk && disk + data <= Whole(j) && k <= |data| && Completes(j, data, k, reason)
    ensures Remains(j, disk + Added(j, data, k, reason), |disk| + k - |j.existing|, |data| - k, reason)
  {
    hide Cancel, Sum;
    CancelLength(reason);
    var n := |disk| + k - |j.existing|;
    assert disk + data[..k] == (disk + data)[..|disk| + k] == Whole(j)[..|disk| + k] == j.existing + j.file[..n];
    assert disk + (data[..k] + Cancel(reason)[..|data| - k]) == disk + data[..k] + Cancel(reason)[..|data| - k];
  }

  lemma CancelLength(reason: Text)
    ensures |Cancel(reason)| == |reason| + 2
  {
  }

  lemma CutBlockCutOff(j: Job, s: Sys, steps: seq<Step>, data: seq<Byte>, k: nat, reason: Text)
    requires j.Valid() && Named(j, s.down) && HalfOf(j, s, steps, [], data, k, reason) && s.up.status != Running
    requires s.down.status == Running && s.down.state == RD && Complete(s.down.rbuf, s.down.Extra()) > 0
    ensures CutOff(j, s.(down := DownStep(s.down, j)), steps)
  {
    hide Blocks, DownStep, Complete, Quiet, Remains, CutOff, Completes, Added, Cancel;
    var d := s.down;
    CutBlock(j, d, s.up.tx, data, k, reason);
    NoBlocks(j, d, s.up.tx, data, k, reason);
    var t := s.(down := DownStep(d, j));
    if Completes(j, data, k, reason) {
      AddedRemains(j, d.disk, data, k, reason);
      QuietIsCutOff(j, t, steps, |d.disk| + k - |j.existing|, |data| - k, reason);
    } else {
      NothingAdded(j, data, k, reason);
      LongerIsLonger(d.disk, data, Whole(j));
      PrefixRemains(j, d.disk);
      assert d.disk + [] == d.disk;
      QuietIsCutOff(j, t, steps, |d.disk| - |j.existing|, 0, CANCELLED);
    }
  }

  lemma NothingAdded(j: Job, data: seq<Byte>, k: nat, reason: Text)
    requires k <= |data| && !Completes(j, data, k, reason)
    ensures Added(j, data, k, reason) == []
  {
  }

  lemma LongerIsLonger(a: seq<Byte>, b: seq<Byte>, w: seq<Byte>)
    requires a + b <= w
    ensures a <= w
  {
  }

  lemma QuietIsCutOff(j: Job, s: Sys, steps: seq<Step>, n: nat, m: nat, reason: Text)
    requires j.Valid() && Named(j, s.down) && Remains(j, s.down.disk, n, m, reason) && Told(s, steps, m, reason)
    requires s.down.status != Finished && s.up.status != Running
    requires s.down.status == Running ==> s.down.state == RD && Quiet(s.down.rbuf + s.up.tx)
    ensures CutOff(j, s, steps)
  {
    hide Remains, Quiet, Half;
  }

  lemma HalfIsCutOff(j: Job, s: Sys, steps: seq<Step>, ds: seq<seq<Byte>>, data: seq<Byte>, k: nat, reason: Text)
    requires j.Valid() && Named(j, s.down) && HalfOf(j, s, steps, ds, data, k, reason)
    requires s.up.status != Running && s.down.status == Running && s.down.state == RD
    ensures CutOff(j, s, steps)
  {
    hide Remains, Cat, Part, Cancel;
    var d := s.down;
    Associate(d.disk, Cat(ds), data);
    LongerIsLonger(d.disk, Cat(ds) + data, Whole(j));
    PrefixRemains(j, d.disk);
    assert Half(j, s, steps);
  }

  lemma AtLeastTwo(buf: seq<Byte>, extra: nat)
    requires Complete(buf, extra) > 0
    ensures |buf| >= 2
  {
  }

  lemma DownStepCutOff(j: Job, s: Sys, steps: seq<Step>)
    requires j.Valid() && CutOff(j, s, steps)
    requires s.down.status == Running && Complete(s.down.rbuf, s.down.Extra()) > 0
    ensures CutOff(j, s.(down := DownStep(s.down, j)), steps)
  {
    hide DownStep, HalfOf, Remains, Complete;
    var d := s.down;
    AtLeastTwo(d.rbuf, d.Extra());
    assert d.rbuf[0] == (d.rbuf + s.up.tx)[0] == (d.rbuf + s.up.tx + s.up.out)[0];
    if s.up.status == Running || Quiet(d.rbuf + s.up.tx) {
      QuietStep(d, j);
    } else {
      var ds, data, k, reason: Text :| HalfOf(j, s, steps, ds, data, k, reason);
      HalfStep(j, s, steps, ds, data, k, reason);
    }
  }

  lemma HalfStep(j: Job, s: Sys, steps: seq<Step>, ds: seq<seq<Byte>>, data: seq<Byte>, k: nat, reason: Text)
    requires j.Valid() && Named(j, s.down) && HalfOf(j, s, steps, ds, data, k, reason) && s.up.status != Running
    requires s.down.status == Running && s.down.state == RD && Complete(s.down.rbuf, s.down.Extra()) > 0
    ensures CutOff(j, s.(down := DownStep(s.down, j)), steps)
  {
    hide DownStep, HalfSent, CutOff, Complete;
    if ds == [] {
      CutBlockCutOff(j, s, steps, data, k, reason);
    } else {
      NextWhole(j, s.down, s.up.tx, ds, data, k, reason);
      HalfIsCutOff(j, s.(down := DownStep(s.down, j)), steps, ds[1..], data, k, reason);
    }
  }

  // ----- the uploader of an empty YAPP C file

  /** What a message makes the uploader send: nothing, an end of transfer or a cancellation. */
  lemma UpDataSends(u: Up, j: Job, msg: seq<Byte>, pick: nat) returns (x: seq<Byte>)
    requires j.Valid() && |msg| >= 2 && u.state != S && u.state != SH
    ensures var v := UpData(u, j, msg, pick);
            && v == u.(status := v.status, state := v.state, tx := u.tx + x)
            && v.state != S && v.state != SH && (v.state == SD ==> u.state == SD)
            && Quiet(x)
  {
    var v := UpData(u, j, msg, pick);
    x := v.tx[|u.tx|..];
  }

  lemma UpStepCutOff(j: Job, s: Sys, pick: nat, steps: seq<Step>)
    requires j.Valid() && CutOff(j, s, steps) && s.up.status == Running && Complete(s.up.rbuf, 0) > 0
    ensures CutOff(j, s.(up := UpStep(s.up, j, pick)), steps)
  {
    hide UpData, HalfOf, Remains;
    var u, d := s.up, s.down;
    if d.status == Running {
      var x := UpDataSends(u, j, u.rbuf[..Complete(u.rbuf, 0)], pick);
      StraySends(d.rbuf, u.tx, u.out, x);
    }
  }

  lemma StraySends(a: seq<Byte>, b: seq<Byte>, c: seq<Byte>, x: seq<Byte>)
    requires a + b + c != [] && Quiet(a + b + c) && Quiet(x)
    ensures a + (b + x) + c != [] && Quiet(a + (b + x) + c) && Quiet(a + (b + x))
  {
    if a + b != [] {
      assert (a + b + c)[0] == (a + b)[0] == (a + (b + x))[0] == (a + (b + x) + c)[0];
    } else {
      assert a + (b + x) == x && a + b + c == c;
      assert a + (b + x) + c == x + c;
    }
  }

  lemma UpWriteCutOff(j: Job, s: Sys, w: nat, pick: nat, steps: seq<Step>)
    requires j.Valid() && CutOff(j, s, steps) && Enabled(s, UpWritable(w, pick))
    ensures CutOff(j, s.(up := UpWrite(s.up, j, w, pick)), steps)
  {
    hide Half, Remains, Quiet, UpWrite;
    var u, d := s.up, s.down;
    if d.status == Running {
      StrayWrites(u, j, w, pick);
      StrayStays(d.rbuf, u.tx, u.out, w);
    }
  }

  /** With nothing left to read the uploader sends the rest, and then the end of file. */
  lemma StrayWrites(u: Up, j: Job, w: nat, pick: nat)
    requires j.Valid() && w <= |u.out| && u.unread == []
    ensures var v := UpWrite(u, j, w, pick);
            && v == u.(state := v.state, total := v.total, out := u.out[w..], tx := v.tx)
            && ((v.state == u.state && v.tx == u.tx + u.out[..w])
                || (v.state == SE && u.out[w..] == [] && v.tx == u.tx + u.out[..w] + [ETX, 1]))
  {
    hide FillBlock;
  }

  lemma StrayStays(a: seq<Byte>, b: seq<Byte>, out: seq<Byte>, w: nat)
    requires w <= |out| && a + b + out != [] && Quiet(a + b + out)
    ensures a + (b + out[..w]) + out[w..] != [] && Quiet(a + (b + out[..w]) + out[w..])
    ensures out[w..] == [] ==>
              var all := a + (b + out[..w] + [ETX, 1]) + out[w..]; all != [] && Quiet(all)
  {
    assert a + (b + out[..w]) + out[w..] == a + b + out;
    if out[w..] == [] {
      assert out[..w] == out;
      assert a + (b + out[..w] + [ETX, 1]) + out[w..] == (a + b + out) + [ETX, 1];
      LongerIsQuiet(a + b + out, [ETX, 1]);
    }
  }

  lemma LongerIsQuiet(a: seq<Byte>, b: seq<Byte>)
    requires a != [] && Quiet(a)
    ensures a + b != [] && Quiet(a + b)
  {
  }

  /** The uploader of an empty YAPP C file gets its answer: this is where the stray octet comes from. */
  lemma BrokenBegin(j: Job, s: Sys, pick: nat, steps: seq<Step>)
    requires j.Valid() && !Fits(j) && Inv(j, s)
    requires s.up.status == Running && s.up.state == SH && Complete(s.up.rbuf, 0) > 0
    ensures CutInv(j, s.(up := UpStep(s.up, j, pick)), steps)
  {
    hide DownPhase, DownOwn, DownStream, Cat, UpData, UpOwn, Wanted, Refusal, CutOff, Fits;
    var ds, core, toUp :| InvWith(j, s, ds, core, toUp);
    FrontMessage(s.up.rbuf, s.down.tx, toUp, 0);
    MessagesTail(toUp, 0);
    RunningExpects(j, s, ds, core, toUp);
    var rbuf := s.up.rbuf[|toUp[0]|..];
    if Refusal(toUp[0]) {
      UpRefusedInv(j, s, rbuf, pick, ds, core, toUp);
    } else {
      StrayBegins(j, s, rbuf, pick, steps, ds, core, toUp);
    }
  }

  lemma StrayBegins(j: Job, s: Sys, rbuf: seq<Byte>, pick: nat, steps: seq<Step>,
        ds: seq<seq<Byte>>, core: seq<seq<Byte>>, toUp: seq<seq<Byte>>)
    requires j.Valid() && !Fits(j) && Arrival(j, s, rbuf, ds, core, toUp)
    requires s.up.state == SH && Wanted(j, s, toUp[0]) && !Refusal(toUp[0])
    ensures UpData(s.up, j, toUp[0], pick).status == Running
    ensures CutOff(j, s.(up := UpData(s.up, j, toUp[0], pick).(rbuf := rbuf)), steps)
  {
    hide Messages, Leftover, Remains, Refusal, Whole, UpData, DownPhase, DownStream, DownOwn, Cat, UpPhase;
    OwnDisk(j, s.down);
    PrefixRemains(j, s.down.disk);
    StrayFill(j, s, toUp[0], pick);
    if s.down.status == Running { NothingOnTheWay(j, s, ds, core, toUp); }
  }

  lemma OwnDisk(j: Job, d: Down)
    requires DownOwn(j, d)
    ensures j.existing <= d.disk <= Whole(j)
  {
  }

  lemma StrayFill(j: Job, s: Sys, m: seq<Byte>, pick: nat)
    requires j.Valid() && !Fits(j) && UpOwn(j, s.up) && s.up.state == SH && Wanted(j, s, m) && !Refusal(m)
    ensures m == Ack(ACK) && s.up.unread == []
    ensures UpData(s.up, j, m, pick) == s.up.(state := SD, yappc := true, out := [0])
  {
    assert m == Ack(ACK);
    var data := s.up.unread[..ReadCount(s.up.unread, j.readlen, pick)];
    assert data == [] && Sum(data) == 0;
    assert [] + [0] == [0];
  }

  /** While the answer to the header is under way nothing travels to the downloader. */
  lemma NothingOnTheWay(j: Job, s: Sys, ds: seq<seq<Byte>>, core: seq<seq<Byte>>, toUp: seq<seq<Byte>>)
    requires j.Valid() && InvWith(j, s, ds, core, toUp) && s.up.state == SH && toUp != []
    requires s.up.status == Running && s.down.status == Running
    ensures s.down.state == RD && s.down.rbuf + s.up.tx == []
  {
    hide Messages, Leftover, DownOwn;
    CatEmpty();
    assert |s.down.rbuf + s.up.tx| <= |s.down.rbuf + s.up.tx + s.up.out|;
  }

  // ----- whole events

  lemma CutOffGrows(j: Job, s: Sys, steps: seq<Step>, longer: seq<Step>)
    requires j.Valid() && CutOff(j, s, steps) && steps <= longer
    ensures CutOff(j, s, longer)
  {
    hide Remains, HalfSent, Stray, Quiet;
    var n, m, reason: Text :| Remains(j, s.down.disk, n, m, reason) && Told(s, steps, m, reason);
    assert Told(s, longer, m, reason);
    if Half(j, s, steps) {
      var ds, data, k, told: Text :| HalfOf(j, s, steps, ds, data, k, told);
      assert HalfOf(j, s, longer, ds, data, k, told);
    }
  }

  lemma UpStepCut(j: Job, s: Sys, pick: nat, steps: seq<Step>)
    requires j.Valid() && CutInv(j, s, steps) && s.up.status == Running && Complete(s.up.rbuf, 0) > 0
    ensures CutInv(j, s.(up := UpStep(s.up, j, pick)), steps)
  {
    hide Inv, CutOff, UpStep, Fits, Complete;
    if CutOff(j, s, steps) {
      UpStepCutOff(j, s, pick, steps);
    } else if s.up.state == SH && !Fits(j) {
      BrokenBegin(j, s, pick, steps);
    } else {
      UpStepInv(j, s, pick);
    }
  }

  lemma {:induction false} UpDrainCut(j: Job, s: Sys, pick: nat, steps: seq<Step>)
    requires j.Valid() && CutInv(j, s, steps)
    ensures CutInv(j, s.(up := UpDrain(s.up, j, pick)), steps)
    decreases |s.up.rbuf|
  {
    hide CutInv, UpData;
    if s.up.status == Running && Complete(s.up.rbuf, 0) > 0 {
      UpStepCut(j, s, pick, steps);
      var v := UpStep(s.up, j, pick);
      if v.status == Running { UpDrainCut(j, s.(up := v), pick, steps); }
    }
  }

  lemma DownStepCut(j: Job, s: Sys, steps: seq<Step>)
    requires j.Valid() && CutInv(j, s, steps) && s.down.status == Running && Complete(s.down.rbuf, s.down.Extra()) > 0
    ensures CutInv(j, s.(down := DownStep(s.down, j)), steps)
  {
    hide Inv, CutOff, DownStep, Complete;
    if CutOff(j, s, steps) { DownStepCutOff(j, s, steps); } else { DownStepInv(j, s); }
  }

  lemma {:induction false} DownDrainCut(j: Job, s: Sys, steps: seq<Step>)
    requires j.Valid() && CutInv(j, s, steps)
    ensures CutInv(j, s.(down := DownDrain(s.down, j)), steps)
    decreases |s.down.rbuf|
  {
    hide CutInv, DownData;
    if s.down.status == Running && Complete(s.down.rbuf, s.down.Extra()) > 0 {
      DownStepCut(j, s, steps);
      var e := DownStep(s.down, j);
      if e.status == Running { DownDrainCut(j, s.(down := e), steps); }
    }
  }

  lemma UpReadCut(j: Job, s: Sys, k: nat, steps: seq<Step>)
    requires j.Valid() && CutInv(j, s, steps) && k <= |s.down.tx| && s.up.status == Running
    ensures CutInv(j, Sys(s.up.(rbuf := s.up.rbuf + s.down.tx[..k]), s.down.(tx := s.down.tx[k..])), steps)
  {
    hide Inv, Remains, HalfOf, Quiet;
    if Inv(j, s) { UpReadInv(j, s, k); }
  }

  lemma DownReadCut(j: Job, s: Sys, k: nat, steps: seq<Step>)
    requires j.Valid() && CutInv(j, s, steps) && k <= |s.up.tx| && s.down.status == Running
    ensures CutInv(j, Sys(s.up.(tx := s.up.tx[k..]), s.down.(rbuf := s.down.rbuf + s.up.tx[..k])), steps)
  {
    hide Inv, Remains, CutOff;
    if CutOff(j, s, steps) { SameOnTheWay(j, s, k, steps); } else { DownReadInv(j, s, k); }
  }

  lemma SameOnTheWay(j: Job, s: Sys, k: nat, steps: seq<Step>)
    requires j.Valid() && CutOff(j, s, steps) && k <= |s.up.tx| && s.down.status == Running
    ensures CutOff(j, Sys(s.up.(tx := s.up.tx[k..]), s.down.(rbuf := s.down.rbuf + s.up.tx[..k])), steps)
  {
    hide Remains, Quiet, Inert, Part, Cat, Cancel;
    var t := Sys(s.up.(tx := s.up.tx[k..]), s.down.(rbuf := s.down.rbuf + s.up.tx[..k]));
    assert t.down.rbuf + t.up.tx == s.down.rbuf + s.up.tx;
    if s.up.status != Running && !Quiet(s.down.rbuf + s.up.tx) {
      var ds, data, n, reason: Text :| HalfOf(j, s, steps, ds, data, n, reason);
      assert HalfOf(j, t, steps, ds, data, n, reason);
    }
  }

  lemma QuitCutOff(j: Job, s: Sys, reason: Text, steps: seq<Step>)
    requires j.Valid() && CutOff(j, s, steps) && s.up.status == Running
    ensures CutOff(j, s.(up := s.up.Fail(Local, Cancel(reason))), steps)
  {
    hide Remains, HalfOf;
    if s.down.status == Running { StraySends(s.down.rbuf, s.up.tx, s.up.out, Cancel(reason)); }
  }

  lemma NextCut(j: Job, s: Sys, e: Event, steps: seq<Step>)
    requires j.Valid() && CutInv(j, s, steps) && Enabled(s, e)
    ensures CutInv(j, Next(s, j, e), steps)
  {
    hide Inv, CutOff, UpDrain, DownDrain, UpWrite;
    match e
    case UpWritable(w, pick) =>
      if Inv(j, s) { UpWriteInv(j, s, w, pick); } else { UpWriteCutOff(j, s, w, pick, steps); }
    case UpReadable(k, pick) =>
      UpReadCut(j, s, k, steps);
      UpDrainCut(j, Sys(s.up.(rbuf := s.up.rbuf + s.down.tx[..k]), s.down.(tx := s.down.tx[k..])), pick, steps);
    case DownReadable(k) =>
      DownReadCut(j, s, k, steps);
      DownDrainCut(j, Sys(s.up.(tx := s.up.tx[k..]), s.down.(rbuf := s.down.rbuf + s.up.tx[..k])), steps);
    case UpQuit(reason) =>
      if Inv(j, s) { UpQuitInv(j, s, reason); } else { QuitCutOff(j, s, reason, steps); }
    case DownQuit(reason) =>
      if Inv(j, s) { DownQuitInv(j, s, reason); } else { DownQuitCutOff(j, s, reason, steps); }
  }

  lemma DownQuitCutOff(j: Job, s: Sys, reason: Text, steps: seq<Step>)
    requires j.Valid() && CutOff(j, s, steps) && Enabled(s, DownQuit(reason))
    ensures CutOff(j, Next(s, j, DownQuit(reason)), steps)
  {
    hide Remains, HalfOf, Quiet, Stray;
  }

  lemma TakeCut(j: Job, s: Sys, step: Step, steps: seq<Step>)
    requires j.Valid() && CutInv(j, s, steps) && Possible(s, step)
    ensures CutInv(j, Take(s, j, step), steps + [step])
  {
    hide Inv, CutOff, Next, Enabled;
    var longer := steps + [step];
    if CutOff(j, s, steps) { CutOffGrows(j, s, steps, longer); }
    match step
    case Plain(e) => NextCut(j, s, e, longer);
    case Cut(reason) =>
      if Inv(j, s) { CutKeeps(j, s, longer, reason); } else { QuitCutOff(j, s, reason, longer); }
  }

  lemma {:induction false} WalkCut(j: Job, steps: seq<Step>)
    requires j.Valid()
    ensures CutInv(j, Walk(j, steps), steps)
  {
    hide CutOff, Inv, Take, Possible;
    if steps == [] {
      InitInv(j);
    } else {
      var front, step := steps[..|steps| - 1], steps[|steps| - 1];
      WalkCut(j, front);
      assert steps == front + [step];
      if Possible(Walk(j, front), step) {
        TakeCut(j, Walk(j, front), step, front);
      } else if CutOff(j, Walk(j, front), front) {
        CutOffGrows(j, Walk(j, front), front, steps);
      }
    }
  }

  // ----- the theorem

  /** In every run of every transfer, the broken one included, wherever the uploader is cancelled:
      the receiver has its old contents, a prefix of the file, and then at most the first octets
      of the text of a cancellation, as many as there were octets of the cut block unsent; it has
      the whole file if it has finished. */
  lemma OneBlockIsSpoiled(j: Job, steps: seq<Step>)
    requires j.Valid()
    ensures var s := Walk(j, steps);
            && (exists n, m, reason: Text :: Remains(j, s.down.disk, n, m, reason) && Told(s, steps, m, reason))
            && (s.down.status == Finished ==> s.down.disk == j.existing + j.file)
            && (!HasCut(steps) ==> j.existing <= s.down.disk <= j.existing + j.file)
  {
    hide Walk, Inv, Half, Quiet, Stray, Good;
    WalkCut(j, steps);
    var s := Walk(j, steps);
    if Inv(j, s) {
      InvIsGood(j, s);
      GoodDisk(j, s);
      PrefixRemains(j, s.down.disk);
    } else {
      var n, m, reason: Text :| Remains(j, s.down.disk, n, m, reason) && Told(s, steps, m, reason);
      if m == 0 { NothingSpoiled(j, s.down.disk, n, reason); }
    }
  }

  lemma GoodDisk(j: Job, s: Sys)
    requires Good(j, s)
    ensures j.existing <= s.down.disk <= Whole(j) && (s.down.status == Finished ==> s.down.disk == Whole(j))
  {
  }

  lemma NothingSpoiled(j: Job, disk: seq<Byte>, n: nat, reason: Text)
    requires Remains(j, disk, n, 0, reason)
    ensures j.existing <= disk <= j.existing + j.file
  {
    assert j.file == j.file[..n] + j.file[n..];
    assert disk + j.file[n..] == j.existing + j.file;
  }

  // ----- exactly when a cut spoils the file

  /** Whether the cancellation is taken for other octets than those in the output buffer: it is
      long enough for them, differs from them, and goes with the checksum if there is one. */
  predicate Spoils(u: Up, reason: Text) {
    var c, m := Cancel(reason), Unsent(u);
    && 0 <= m && |u.out| <= |c| && c[..m] != u.out[..m]
    && (u.yappc && m < |u.out| ==> (u.out[m] + Sum(c[..m])) % 256 == (c[m] + Sum(u.out[..m])) % 256)
  }

  lemma {:induction false} SumConcat(a: seq<Byte>, b: seq<Byte>)
    ensures Sum(a + b) == (Sum(a) + Sum(b)) % 256
    decreases |b|
  {
    hide Sum;
    if b == [] {
      assert a + b == a;
      NoSum();
    } else {
      var front, x := b[..|b| - 1], b[|b| - 1];
      assert (a + b)[..|a + b| - 1] == a + front;
      SumLast(b);
      SumLast(a + b);
      SumConcat(a, front);
      ModuloInside(Sum(a), Sum(front), x);
    }
  }

  lemma NoSum()
    ensures Sum([]) == 0
  {
  }

  lemma SumLast(s: seq<Byte>)
    requires s != []
    ensures Sum(s) == (Sum(s[..|s| - 1]) + s[|s| - 1]) % 256
  {
  }

  lemma ModuloInside(a: int, b: int, x: int)
    ensures ((a + b) % 256 + x) % 256 == (a + (b + x) % 256) % 256
  {
  }

  /** The output buffer of a half-sent block, data and checksum. */
  predicate OutOf(u: Up, data: seq<Byte>, k: nat)
    requires k <= |data|
  {
    u.out == data[k..] + (if u.yappc then [Sum(data)] else [])
  }

  /** The condition on the output buffer is the one on the block. */
  lemma SpoilsIs(j: Job, u: Up, data: seq<Byte>, k: nat, reason: Text)
    requires k <= |data| && u.yappc == j.Checked() && OutOf(u, data, k)
    ensures Spoils(u, reason) <==>
            Completes(j, data, k, reason) && data[..k] + Cancel(reason)[..|data| - k] != data
  {
    hide Sum, Cancel, OutOf;
    var c, m := Cancel(reason), |data| - k;
    OutIs(u, data, k);
    if m <= |c| {
      SameBehind(data[..k], c[..m], data[k..]);
      assert data[..k] + data[k..] == data;
      if m < |c| && u.yappc { ChecksumFits(data, k, c[..m], c[m]); }
    }
  }

  lemma OutIs(u: Up, data: seq<Byte>, k: nat)
    requires k <= |data| && OutOf(u, data, k)
    ensures var m := |data| - k;
            && Unsent(u) == m && |u.out| == m + (if u.yappc then 1 else 0)
            && u.out[..m] == data[k..] && (u.yappc ==> u.out[m] == Sum(data))
  {
    hide Sum;
  }

  lemma ChecksumFits(data: seq<Byte>, k: nat, told: seq<Byte>, check: Byte)
    requires k <= |data|
    ensures Sum(data[..k] + told) == check <==> (Sum(data) + Sum(told)) % 256 == (check + Sum(data[k..])) % 256
  {
    hide Sum;
    assert data == data[..k] + data[k..];
    SumConcat(data[..k], data[k..]);
    SumConcat(data[..k], told);
    SumsMatch(Sum(data[..k]), Sum(data[k..]), Sum(told), check);
  }

  lemma SameBehind(a: seq<Byte>, b: seq<Byte>, c: seq<Byte>)
    ensures a + b == a + c <==> b == c
  {
    if a + b == a + c {
      assert b == (a + b)[|a|..] && c == (a + c)[|a|..];
    }
  }

  lemma SumsMatch(a: Byte, b: Byte, c: Byte, check: Byte)
    ensures (a + c) % 256 == check <==> ((a + b) % 256 + c) % 256 == (check + b) % 256
  {
  }

  /** What is on disk once the downloader has read everything. */
  function Final(j: Job, s: Sys): seq<Byte>
    requires j.Valid()
  {
    DownDrain(s.down.(rbuf := s.down.rbuf + s.up.tx), j).disk
  }

  lemma QuietDrain(d: Down, j: Job)
    requires j.Valid() && (d.status == Running ==> d.state == RD && Quiet(d.rbuf))
    ensures DownDrain(d, j).disk == d.disk
  {
    hide DownStep, Complete;
    if d.status == Running && Complete(d.rbuf, d.Extra()) > 0 {
      AtLeastTwo(d.rbuf, d.Extra());
      QuietStep(d, j);
    }
  }

  lemma {:induction false} HalfDrain(j: Job, d: Down, ds: seq<seq<Byte>>, data: seq<Byte>, k: nat, reason: Text)
    requires j.Valid() && HalfSent(j, d, [], ds, data, k, reason) && d.status == Running && d.state == RD
    ensures k <= |data| && DownDrain(d, j).disk == d.disk + Cat(ds) + Added(j, data, k, reason)
    decreases |ds|
  {
    hide HalfSent, DownStep, Complete, Added, Completes, Quiet, Cat;
    HalfBounds(j, d, ds, data, k, reason);
    if Complete(d.rbuf, d.Extra()) > 0 {
      var e := DownStep(d, j);
      if ds == [] {
        CutBlock(j, d, [], data, k, reason);
        assert e.rbuf + [] == e.rbuf;
        QuietDrain(e, j);
        CatEmpty();
        assert d.disk + [] == d.disk;
      } else {
        NextWhole(j, d, [], ds, data, k, reason);
        HalfDrain(j, e, ds[1..], data, k, reason);
        CatUnfold(ds);
        Associate(d.disk, ds[0], Cat(ds[1..]));
      }
    } else {
      NothingComplete(j, d, ds, data, k, reason);
      CatEmpty();
      assert d.disk + [] + [] == d.disk;
    }
  }

  lemma HalfBounds(j: Job, d: Down, ds: seq<seq<Byte>>, data: seq<Byte>, k: nat, reason: Text)
    requires HalfSent(j, d, [], ds, data, k, reason)
    ensures 1 <= |data| <= 253 && k <= |data| && Readable(ds) && d.yappc == j.Checked()
    ensures d.rbuf == Cat(Blocks(j, ds)) + (Part(data, k) + Cancel(reason))
  {
    hide Cat, Part, Cancel, Inert;
    assert d.rbuf + [] == d.rbuf;
  }

  /** A buffer without a complete message holds only a cut block that does not come to an end. */
  lemma NothingComplete(j: Job, d: Down, ds: seq<seq<Byte>>, data: seq<Byte>, k: nat, reason: Text)
    requires j.Valid() && HalfSent(j, d, [], ds, data, k, reason) && Complete(d.rbuf, d.Extra()) == 0
    ensures ds == [] && k <= |data| && Added(j, data, k, reason) == []
  {
    hide HalfSent, Cat, Complete, Inert, Sum, Blocks, Cancel;
    HalfBounds(j, d, ds, data, k, reason);
    var end := Part(data, k) + Cancel(reason);
    if ds != [] {
      FirstBlock(j, ds, end);
      BlockMessage(j, ds[0], d.Extra());
      WholeIsComplete(Block(j, ds[0]), Cat(Blocks(j, ds[1..])) + end, d.Extra());
    } else {
      NoBlocks(j, d, [], data, k, reason);
      assert d.rbuf + [] == d.rbuf;
      CancelLength(reason);
      TooShort(d.rbuf, data, k, reason, d.Extra());
    }
  }

  lemma WholeIsComplete(m: seq<Byte>, tail: seq<Byte>, extra: nat)
    requires IsMessage(m, extra)
    ensures Complete(m + tail, extra) > 0
  {
    assert (m + tail)[0] == m[0] && (m + tail)[1] == m[1];
  }

  lemma TooShort(rbuf: seq<Byte>, data: seq<Byte>, k: nat, reason: Text, extra: nat)
    requires 1 <= |data| <= 253 && k <= |data| && rbuf == Part(data, k) + Cancel(reason) && Complete(rbuf, extra) == 0
    ensures |Cancel(reason)| < |data| - k + extra
  {
    hide Cancel;
    assert rbuf[0] == STX && rbuf[1] == |data|;
  }

  // ----- reading in pieces

  /** It makes no difference to the disk how the stream is cut into reads. */
  lemma {:induction false} ReadsAreOne(d: Down, j: Job, more: seq<Byte>)
    requires j.Valid()
    ensures var e := DownDrain(d, j);
            DownDrain(d.(rbuf := d.rbuf + more), j).disk ==
            if e.status == Running then DownDrain(e.(rbuf := e.rbuf + more), j).disk else e.disk
    decreases |d.rbuf|
  {
    hide DownData, Complete;
    if d.status == Running && Complete(d.rbuf, d.Extra()) > 0 {
      var k := Complete(d.rbuf, d.Extra());
      MoreBehind(d.rbuf, more, d.Extra());
      var f := d.(rbuf := d.rbuf + more);
      SameMessage(d, j, more);
      var e := DownStep(d, j);
      if e.status == Running { ReadsAreOne(e, j, more); }
    }
  }

  lemma MoreBehind(buf: seq<Byte>, more: seq<Byte>, extra: nat)
    requires Complete(buf, extra) > 0
    ensures var k := Complete(buf, extra);
            Complete(buf + more, extra) == k && (buf + more)[..k] == buf[..k] && (buf + more)[k..] == buf[k..] + more
  {
  }

  lemma SameMessage(d: Down, j: Job, more: seq<Byte>)
    requires j.Valid() && d.status == Running && Complete(d.rbuf, d.Extra()) > 0
    ensures var e, f := DownStep(d, j), d.(rbuf := d.rbuf + more);
            && Complete(f.rbuf, f.Extra()) > 0
            && DownStep(f, j) == e.(rbuf := e.rbuf + more)
  {
    hide Complete, DownData;
    MoreBehind(d.rbuf, more, d.Extra());
    FrontIsFramed(d.rbuf, d.Extra());
    DataLeavesBuffer(d, j, d.rbuf[..Complete(d.rbuf, d.Extra())], d.rbuf + more);
  }

  lemma FrontIsFramed(buf: seq<Byte>, extra: nat)
    requires Complete(buf, extra) > 0
    ensures Framed(buf[..Complete(buf, extra)], extra)
  {
  }

  lemma DataLeavesBuffer(d: Down, j: Job, msg: seq<Byte>, buf: seq<Byte>)
    requires j.Valid() && Framed(msg, d.Extra())
    ensures DownData(d.(rbuf := buf), j, msg) == DownData(d, j, msg).(rbuf := buf)
    ensures DownData(d, j, msg).rbuf == d.rbuf
  {
    hide DownData;
    match d.state
    case R => RequestLeavesBuffer(d, j, msg, buf);
    case RH => HeaderLeavesBuffer(d, j, msg, buf);
    case RD => BlockLeavesBuffer(d, j, msg, buf);
  }

  lemma RequestLeavesBuffer(d: Down, j: Job, msg: seq<Byte>, buf: seq<Byte>)
    requires j.Valid() && Framed(msg, d.Extra()) && d.state == R
    ensures DownData(d.(rbuf := buf), j, msg) == DownData(d, j, msg).(rbuf := buf)
    ensures DownData(d, j, msg).rbuf == d.rbuf
  {
    hide Cancel;
  }

  lemma HeaderLeavesBuffer(d: Down, j: Job, msg: seq<Byte>, buf: seq<Byte>)
    requires j.Valid() && Framed(msg, d.Extra()) && d.state == RH
    ensures DownData(d.(rbuf := buf), j, msg) == DownData(d, j, msg).(rbuf := buf)
    ensures DownData(d, j, msg).rbuf == d.rbuf
  {
    hide Cancel, Fields, Resume, Nak;
  }

  lemma BlockLeavesBuffer(d: Down, j: Job, msg: seq<Byte>, buf: seq<Byte>)
    requires j.Valid() && Framed(msg, d.Extra()) && d.state == RD
    ensures DownData(d.(rbuf := buf), j, msg) == DownData(d, j, msg).(rbuf := buf)
    ensures DownData(d, j, msg).rbuf == d.rbuf
  {
    hide Cancel, Sum;
  }

  lemma ReadKeepsFinal(j: Job, s: Sys, k: nat)
    requires j.Valid() && Enabled(s, DownReadable(k))
    ensures var t := Next(s, j, DownReadable(k)); Final(j, t) == Final(j, s) && t.up == s.up.(tx := s.up.tx[k..])
  {
    hide DownDrain;
    var d := s.down.(rbuf := s.down.rbuf + s.up.tx[..k]);
    ReadsAreOne(d, j, s.up.tx[k..]);
    assert d.rbuf + s.up.tx[k..] == s.down.rbuf + s.up.tx;
    StoppedDrains(DownDrain(d, j), j, s.up.tx[k..]);
  }

  lemma StoppedDrains(d: Down, j: Job, more: seq<Byte>)
    requires j.Valid()
    ensures d.status != Running ==> DownDrain(d.(rbuf := d.rbuf + more), j).disk == d.disk
  {
  }

  /** The state after some reads by the downloader. */
  function Reads(j: Job, s: Sys, ks: seq<nat>): Sys
    requires j.Valid()
    decreases |ks|
  {
    if ks == [] then s
    else Reads(j, if Enabled(s, DownReadable(ks[0])) then Next(s, j, DownReadable(ks[0])) else s, ks[1..])
  }

  predicate DownDrained(s: Sys) {
    s.down.status == Running ==> Complete(s.down.rbuf, s.down.Extra()) == 0
  }

  lemma {:induction false} ReadsKeepFinal(j: Job, s: Sys, ks: seq<nat>)
    requires j.Valid()
    ensures var t := Reads(j, s, ks); Final(j, t) == Final(j, s) && (t == s || DownDrained(t))
    decreases |ks|
  {
    hide Next, Enabled, Final, DownDrained;
    if ks != [] && Enabled(s, DownReadable(ks[0])) {
      ReadKeepsFinal(j, s, ks[0]);
      ReadDrains(j, s, ks[0]);
      ReadsKeepFinal(j, Next(s, j, DownReadable(ks[0])), ks[1..]);
    } else if ks != [] {
      ReadsKeepFinal(j, s, ks[1..]);
    }
  }

  lemma ReadDrains(j: Job, s: Sys, k: nat)
    requires j.Valid() && Enabled(s, DownReadable(k))
    ensures DownDrained(Next(s, j, DownReadable(k)))
  {
    hide DownDrain, Complete;
    DownDrainDrains(s.down.(rbuf := s.down.rbuf + s.up.tx[..k]), j);
  }

  lemma FinalIsDisk(j: Job, t: Sys)
    requires j.Valid() && DownDrained(t) && (t.down.status == Running ==> t.up.tx == [])
    ensures Final(j, t) == t.down.disk
  {
    hide DownStep, Complete;
    if t.down.status == Running { assert t.down.rbuf + [] == t.down.rbuf; }
  }

  /** A block is cut in any state of any transfer, and the downloader reads everything, in whatever
      pieces, or stops. Then the disk holds more than a prefix of the file exactly when the
      cancellation is taken for other octets than those in the output buffer. */
  lemma CutSpoilsExactly(j: Job, steps: seq<Step>, reason: Text, ks: seq<nat>)
    requires j.Valid() && Possible(Walk(j, steps), Cut(reason)) && Walk(j, steps).down.status == Running
    requires var t := Reads(j, Take(Walk(j, steps), j, Cut(reason)), ks); t.down.status == Running ==> t.up.tx == []
    ensures var s := Walk(j, steps); var t := Reads(j, Take(s, j, Cut(reason)), ks);
            t.down.disk <= j.existing + j.file <==> !Spoils(s.up, reason)
  {
    hide Walk, Inv, CutOff, Reads, Final, DownDrained, Spoils;
    var s := Walk(j, steps);
    var cut := Take(s, j, Cut(reason));
    var t := Reads(j, cut, ks);
    ReadsKeepFinal(j, cut, ks);
    if t == cut { CutIsOnTheWay(s, reason); }
    FinalIsDisk(j, t);
    WalkCut(j, steps);
    if Inv(j, s) { BlockIsCut(j, s, reason); } else { StrayIsCut(j, s, steps, reason); }
  }

  lemma CutIsOnTheWay(s: Sys, reason: Text)
    ensures s.up.Fail(Local, Cancel(reason)).tx != []
  {
  }

  /** The broken transfer has nothing to spoil. */
  lemma StrayIsCut(j: Job, s: Sys, steps: seq<Step>, reason: Text)
    requires j.Valid() && CutOff(j, s, steps) && Possible(s, Cut(reason)) && s.down.status == Running
    ensures Final(j, Take(s, j, Cut(reason))) <= Whole(j) && !Spoils(s.up, reason)
  {
    hide Half, DownDrain, Quiet, Sum;
    var t := Take(s, j, Cut(reason));
    StraySends(s.down.rbuf, s.up.tx, s.up.out, Cancel(reason)) by { CancelIsQuiet(reason); }
    QuietDrain(t.down.(rbuf := t.down.rbuf + t.up.tx), j);
    var n, m, told: Text :| Remains(j, s.down.disk, n, m, told) && Told(s, steps, m, told);
    NothingSpoiled(j, s.down.disk, n, told);
  }

  lemma CancelIsQuiet(reason: Text)
    ensures Quiet(Cancel(reason))
  {
  }

  lemma BlockIsCut(j: Job, s: Sys, reason: Text)
    requires j.Valid() && Inv(j, s) && Possible(s, Cut(reason)) && s.down.status == Running
    ensures Final(j, Take(s, j, Cut(reason))) <= Whole(j) <==> !Spoils(s.up, reason)
  {
    hide Cat, Messages, UpPhase, Leftover, Inert, HalfSent, Block, Final, Spoils, Completes, Added, Cancel, Sum;
    var ds, core, toUp :| InvWith(j, s, ds, core, toUp);
    var t := Take(s, j, Cut(reason));
    var k := HalfOnTheWay(j, s, [Cut(reason)], reason, ds);
    var init, last := ds[..|ds| - 1], ds[|ds| - 1];
    HalfIsFinal(j, t, init, last, k, reason);
    SpoilsIs(j, s.up, last, k, reason);
    OnDisk(j, t.down.disk + Cat(init), last, k, reason);
  }

  lemma HalfIsFinal(j: Job, t: Sys, ds: seq<seq<Byte>>, data: seq<Byte>, k: nat, reason: Text)
    requires j.Valid() && HalfSent(j, t.down, t.up.tx, ds, data, k, reason)
    requires t.down.status == Running && t.down.state == RD
    ensures k <= |data| && Final(j, t) == t.down.disk + Cat(ds) + Added(j, data, k, reason)
    ensures t.down.disk + Cat(ds) + data <= Whole(j)
  {
    hide Cat, Part, Cancel, Inert, DownDrain, Added;
    var d := t.down.(rbuf := t.down.rbuf + t.up.tx);
    assert d.rbuf + [] == d.rbuf;
    HalfDrain(j, d, ds, data, k, reason);
  }

  /** Instead of data the disk gets something as long, or nothing. */
  lemma OnDisk(j: Job, w: seq<Byte>, data: seq<Byte>, k: nat, reason: Text)
    requires w + data <= Whole(j) && k <= |data|
    ensures w + Added(j, data, k, reason) <= Whole(j) <==>
            !(Completes(j, data, k, reason) && data[..k] + Cancel(reason)[..|data| - k] != data)
  {
    hide Cancel, Sum;
    if Completes(j, data, k, reason) {
      var x := data[..k] + Cancel(reason)[..|data| - k];
      SameBehind(w, x, data);
      assert w + data == Whole(j)[..|w| + |data|];
      if w + x <= Whole(j) { assert w + x == Whole(j)[..|w| + |data|]; }
    } else {
      assert w + [] == w;
      LongerIsLonger(w, data, Whole(j));
    }
  }

  // ----- a block is spoiled

  function Plains(events: seq<Event>): seq<Step> {
    seq(|events|, i requires 0 <= i < |events| => Plain(events[i]))
  }

  lemma {:induction false} WalkIsRun(j: Job, events: seq<Event>)
    requires j.Valid()
    ensures Walk(j, Plains(events)) == Run(j, events)
  {
    hide Next, Enabled;
    if events != [] {
      var front := events[..|events| - 1];
      WalkIsRun(j, front);
      assert Plains(events)[..|events| - 1] == Plains(front);
    }
  }

  lemma WalkStep(j: Job, steps: seq<Step>, step: Step) returns (longer: seq<Step>)
    requires j.Valid() && Possible(Walk(j, steps), step)
    ensures Walk(j, longer) == Take(Walk(j, steps), j, step)
  {
    hide Take, Possible;
    longer := steps + [step];
    assert longer[..|steps|] == steps;
  }

  /** The first block of a plain transfer, one octet long, is announced and not yet sent. */
  predicate Announced(j: Job, s: Sys) {
    && j.file != [] && s.up == UpInit(j).(state := SD, tx := [STX, 1], out := j.file[..1], unread := j.file[1..])
    && s.down.status == Running && s.down.state == RD && !s.down.yappc
    && s.down.rbuf == [] && s.down.tx == [] && s.down.disk == j.existing
  }

  lemma PlainStart(j: Job) returns (events: seq<Event>)
    requires j.Valid() && !j.Checked() && (j.hasFile || j.canOpen) && j.file != []
    ensures Announced(j, Run(j, events))
  {
    hide Next, Enabled, Header, Run, HeaderSent, AllEffective, Announced;
    events := Handshake(j);
    var t := PlainHeader(j);
    var s := FirstOctet(j, t);
    events := Extend(j, events, HeaderSent(j), DownReadable(|Header(j)|));
    events := Extend(j, events, t, UpReadable(2, 0));
  }

  lemma PlainHeader(j: Job) returns (t: Sys)
    requires j.Valid() && !j.Checked() && (j.hasFile || j.canOpen)
    ensures Enabled(HeaderSent(j), DownReadable(|Header(j)|))
    ensures t == Next(HeaderSent(j), j, DownReadable(|Header(j)|))
    ensures t.up == UpInit(j).(state := SH, tx := []) && t.down.tx == Ack(2)
    ensures t.down.status == Running && t.down.state == RD && !t.down.yappc && t.down.rbuf == [] && t.down.disk == j.existing
  {
    hide HeaderFields, Fields;
    HeaderMessage(j, 0);
    HeaderHasFields(j);
    assert Header(j)[2..] == HeaderFields(j);
    t := Deliver(j, HeaderSent(j), Header(j));
  }

  lemma FirstOctet(j: Job, t: Sys) returns (s: Sys)
    requires j.Valid() && !j.Checked() && j.file != [] && t.up == UpInit(j).(state := SH, tx := []) && t.down.tx == Ack(2)
    requires t.down.status == Running && t.down.state == RD && !t.down.yappc && t.down.rbuf == [] && t.down.disk == j.existing
    ensures Enabled(t, UpReadable(2, 0)) && s == Next(t, j, UpReadable(2, 0)) && Announced(j, s)
  {
    s := Answer(j, t, Ack(2));
    assert j.file[..1] + [] == j.file[..1];
  }

  /** The promise of a prefix of the file does not hold when a block is cut: in every plain
      transfer of a file that is not empty the cancellation code can end up on disk. */
  lemma CutSpoils(j: Job) returns (steps: seq<Step>)
    requires j.Valid() && !j.Checked() && (j.hasFile || j.canOpen) && j.file != []
    ensures Walk(j, steps).down.disk == j.existing + [CAN]
    ensures j.file[0] != CAN ==> !(Walk(j, steps).down.disk <= j.existing + j.file)
  {
    hide Walk, Run, Take, Possible, Announced;
    var events := PlainStart(j);
    WalkIsRun(j, events);
    var s := Run(j, events);
    var t := CutFirst(j, s);
    var v := CodeWritten(j, t);
    steps := WalkStep(j, Plains(events), Cut(CANCELLED));
    steps := WalkStep(j, steps, Plain(DownReadable(3)));
    if j.file[0] != CAN { assert (j.existing + [CAN])[|j.existing|] != (j.existing + j.file)[|j.existing|]; }
  }

  lemma CutFirst(j: Job, s: Sys) returns (t: Sys)
    requires j.Valid() && Announced(j, s)
    ensures Possible(s, Cut(CANCELLED)) && t == Take(s, j, Cut(CANCELLED))
    ensures t.up.tx == [STX, 1] + Cancel(CANCELLED) && t.down.disk == j.existing
    ensures t.down.status == Running && t.down.state == RD && !t.down.yappc && t.down.rbuf == []
  {
    ReasonsAreInert();
    t := Take(s, j, Cut(CANCELLED));
  }

  lemma CodeWritten(j: Job, t: Sys) returns (v: Sys)
    requires j.Valid() && t.up.tx == [STX, 1] + Cancel(CANCELLED)
    requires t.down.status == Running && t.down.state == RD && !t.down.yappc && t.down.rbuf == [] && t.down.disk == j.existing
    ensures Possible(t, Plain(DownReadable(3))) && v == Take(t, j, Plain(DownReadable(3)))
    ensures v.down.disk == j.existing + [CAN]
  {
    hide Sum;
    v := Take(t, j, Plain(DownReadable(3)));
    var block := [STX, 1, CAN];
    assert t.up.tx[..3] == block && [] + block == block;
    assert block[2..3] == [CAN];
    DownDrainsOne(t.down.(rbuf := block), j, block);
  }
}
