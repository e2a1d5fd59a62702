/** Every run of reads, writes and truncations, starting from the image mkfs writes. */
module FsRuns {
  import opened Params
  import opened Blocks
  import opened FsSpec
  import opened FsData
  import opened FsOps

  datatype Op =
    | OpWrite(i: int, off: nat, data: seq<int>)
    | OpRead(i: int, off: nat, n: nat)
    | OpTrunc(i: int)

  /** Operations name an inode; offsets and lengths are uints. */
  predicate OpOk(ninodes: nat, op: Op) {
    match op
    case OpWrite(i, off, data) => 0 <= i < ninodes && off < W32 && |data| < W32
    case OpRead(i, off, n) => 0 <= i < ninodes && off < W32 && n < W32
    case OpTrunc(i) => 0 <= i < ninodes
  }

  ghost predicate OpsOk(ninodes: nat, ops: seq<Op>) {
    forall t :: 0 <= t < |ops| ==> OpOk(ninodes, ops[t])
  }

  datatype State = Running(fs: Fs) | Halted

  ghost function Exec(fs: Fs, op: Op): (r: State)
    requires Shape(fs) && OpOk(|fs.ino|, op)
    ensures r.Running? ==> Shape(r.fs) && |r.fs.ino| == |fs.ino|
  {
    match op
    case OpWrite(i, off, data) =>
      (match Writei(fs, i, off, data)
       case Written(f) => Running(f)
       case WritePanic => Halted
       case Refused => Running(fs)
       case Device => Running(fs))
    case OpRead(i, off, n) =>
      (match Readi(fs, i, off, n)
       case Read(f, _) => Running(f)
       case ReadPanic => Halted
       case ReadRefused => Running(fs)
       case ReadDevice => Running(fs))
    case OpTrunc(i) => Running(Truncated(fs, i))
  }

  ghost function Run(fs: Fs, ops: seq<Op>): (r: State)
    requires Shape(fs) && OpsOk(|fs.ino|, ops)
    ensures r.Running? ==> Shape(r.fs) && |r.fs.ino| == |fs.ino|
    decreases |ops|
  {
    if ops == [] then Running(fs)
    else
      match Exec(fs, ops[0])
      case Running(f) => Run(f, ops[1..])
      case Halted => Halted
  }

  // ---------- ownership, holes or not ----------

  lemma {:induction false} GetKeepsInv(fs: Fs, own: seq<Owner>, i: int, off: nat, n: nat) returns (own': seq<Owner>)
    requires Inv(fs, own) && 0 <= i < |fs.ino| && GetFrom(fs, i, off, n).Got?
    ensures Inv(GetFrom(fs, i, off, n).fs, own')
    decreases n
  {
    hide Inv, Bmap, Grew, Slot;
    InvShape(fs, own);
    if n == 0 {
      own' := own;
    } else {
      var m := ChunkLen(off, n);
      var own1 := BmapKeeps(fs, own, i, Blk(off));
      own' := GetKeepsInv(Bmap(fs, i, Blk(off)).fs, own1, i, off + m, n - m);
    }
  }

  lemma WriteKeepsInv(fs: Fs, own: seq<Owner>, i: int, off: nat, data: seq<int>) returns (own': seq<Owner>)
    requires Inv(fs, own) && 0 <= i < |fs.ino| && Writei(fs, i, off, data).Written?
    ensures Inv(Writei(fs, i, off, data).fs, own')
  {
    hide Inv, PutFrom, Wrote, Slot;
    InvShape(fs, own);
    own' := PutWrote(fs, own, i, off, data);
    var f := PutFrom(fs, i, off, data).fs;
    ResizedKeepsInv(f, own', i, off + |data|);
  }

  lemma ExecKeepsInv(fs: Fs, own: seq<Owner>, op: Op) returns (own': seq<Owner>)
    requires Inv(fs, own) && OpOk(|fs.ino|, op) && Exec(fs, op).Running?
    ensures Inv(Exec(fs, op).fs, own')
  {
    hide Inv, Writei, GetFrom, Truncated;
    InvShape(fs, own);
    own' := own;
    match op
    case OpWrite(i, off, data) =>
      if Writei(fs, i, off, data).Written? {
        own' := WriteKeepsInv(fs, own, i, off, data);
      }
    case OpRead(i, off, n) =>
      if Readi(fs, i, off, n).Read? {
        var size := fs.ino[i].size;
        own' := GetKeepsInv(fs, own, i, off, if (off + n) % W32 > size then size - off else n);
      }
    case OpTrunc(i) =>
      TruncateKeepsInv(fs, own, i);
      own' := Disowned(own, i);
  }

  lemma {:induction false} RunKeepsInv(fs: Fs, own: seq<Owner>, ops: seq<Op>) returns (own': seq<Owner>)
    requires Inv(fs, own) && OpsOk(|fs.ino|, ops) && Run(fs, ops).Running?
    ensures Inv(Run(fs, ops).fs, own')
    decreases |ops|
  {
    hide Inv, Exec;
    InvShape(fs, own);
    if ops == [] {
      own' := own;
    } else {
      var own1 := ExecKeepsInv(fs, own, ops[0]);
      own' := RunKeepsInv(Exec(fs, ops[0]).fs, own1, ops[1..]);
    }
  }

  // ---------- contents ----------

  ghost function Contents(fs: Fs): (c: seq<seq<int>>)
    requires Shape(fs)
    ensures |c| == |fs.ino|
  {
    seq(|fs.ino|, i requires 0 <= i < |fs.ino| => Content(fs, i))
  }

  function Devices(fs: Fs): (d: seq<bool>)
    ensures |d| == |fs.ino|
  {
    seq(|fs.ino|, i requires 0 <= i < |fs.ino| => fs.ino[i].dev)
  }

  /** The same operation on plain byte sequences. */
  function Plain(files: seq<seq<int>>, devs: seq<bool>, op: Op): (r: seq<seq<int>>)
    requires OpOk(|files|, op) && |devs| == |files|
    ensures |r| == |files|
  {
    match op
    case OpWrite(i, off, data) =>
      if devs[i] || off > |files[i]| || off + |data| > MAXFILE * BSIZE then files
      else files[i := Overwrite(files[i], off, data)]
    case OpRead(i, off, n) => files
    case OpTrunc(i) => files[i := []]
  }

  function PlainRun(files: seq<seq<int>>, devs: seq<bool>, ops: seq<Op>): (r: seq<seq<int>>)
    requires (forall t :: 0 <= t < |ops| ==> OpOk(|files|, ops[t])) && |devs| == |files|
    decreases |ops|
  {
    if ops == [] then files else PlainRun(Plain(files, devs, ops[0]), devs, ops[1..])
  }

  lemma ExecRefines(fs: Fs, own: seq<Owner>, op: Op) returns (own': seq<Owner>)
    requires Good(fs, own) && OpOk(|fs.ino|, op) && Exec(fs, op).Running?
    ensures Good(Exec(fs, op).fs, own')
    ensures Contents(Exec(fs, op).fs) == Plain(Contents(fs), Devices(fs), op)
    ensures Devices(Exec(fs, op).fs) == Devices(fs)
  {
    hide Inv, Writei, Readi, Truncated, FileOk, Content, Shape;
    InvShape(fs, own);
    own' := own;
    match op
    case OpWrite(i, off, data) =>
      WriteOutcome(fs, i, off, data);
      if Writei(fs, i, off, data).Written? {
        own' := WriteiRefines(fs, own, i, off, data);
      }
    case OpRead(i, off, n) =>
      if !fs.ino[i].dev {
        ReadiRefines(fs, own, i, off, n);
      } else {
        ReadOfDevice(fs, i, off, n);
      }
    case OpTrunc(i) =>
      TruncateRefines(fs, own, i);
      own' := Disowned(own, i);
  }

  lemma WriteOutcome(fs: Fs, i: int, off: nat, data: seq<int>)
    requires Shape(fs) && 0 <= i < |fs.ino| && off < W32 && |data| < W32
    ensures Writei(fs, i, off, data).Device? <==> fs.ino[i].dev
    ensures Writei(fs, i, off, data).Refused? <==>
              !fs.ino[i].dev && (off > fs.ino[i].size || off + |data| > MAXFILE * BSIZE)
  {
    RefusesExactly(fs.ino[i].size, off, |data|);
  }

  lemma ReadOfDevice(fs: Fs, i: int, off: nat, n: nat)
    requires Shape(fs) && 0 <= i < |fs.ino| && fs.ino[i].dev
    ensures Readi(fs, i, off, n) == ReadDevice
  {
  }

  lemma {:induction false} RunRefines(fs: Fs, own: seq<Owner>, ops: seq<Op>) returns (own': seq<Owner>)
    requires Good(fs, own) && OpsOk(|fs.ino|, ops) && Run(fs, ops).Running?
    ensures Good(Run(fs, ops).fs, own')
    ensures Contents(Run(fs, ops).fs) == PlainRun(Contents(fs), Devices(fs), ops)
    ensures Devices(Run(fs, ops).fs) == Devices(fs)
    decreases |ops|
  {
    hide Inv, FileOk, Exec, Content, Plain;
    InvShape(fs, own);
    if ops == [] {
      own' := own;
    } else {
      var own1 := ExecRefines(fs, own, ops[0]);
      own' := RunRefines(Exec(fs, ops[0]).fs, own1, ops[1..]);
    }
  }
}
