/** `vh fs get` and `vh fs put` on the client's side of the socket (core/main/cli.cpp): which replies of the daemon
    let a download be kept, what is left on disk otherwise, and what an upload sends. */
module Transfer {
  import opened Wrappers
  import opened Sequences
  import opened Base64

  const MAX_TRANSFER_FRAME := 524288
  const MAX_REPLY_FRAME := 67108864
  const DATA_ERR := 65
  const CANT_CREATE := 73
  const IO_ERR := 74
  const TEMP_FAIL := 75
  const PROTOCOL := 76

  /** A frame by its type; a field is None when it is missing or of another JSON type. */
  datatype Frame =
    | Hello
    | Output
    | Announce(size: Option<nat>)                       // "transfer"
    | Data(number: Option<nat>, b64: Option<string>)
    | Verdict(exitCode: Option<int>, ok: Option<bool>)  // "result"
    | Ready                                             // "transfer-ready"
    | End(bytes: nat)                                   // "transfer-end"
    | Abort                                             // "transfer-abort"
    | Other

  /** A frame as it arrives, with its length. After the last one the connection is gone. */
  datatype Packet = Packet(frame: Frame, length: nat)

  function Int32(n: int): int {
    (n + 0x8000_0000) % 0x1_0000_0000 - 0x8000_0000
  }

  function ExitCode(f: Frame): int
    requires f.Verdict?
  {
    if f.exitCode.Some? then Int32(f.exitCode.value)
    else if f.ok.Some? then (if f.ok.value then 0 else 1)
    else PROTOCOL
  }

  /** The exit status of a verdict: its code as a 32-bit number, else 0 or 1 as it says ok or not, else 76. Only a zero
      code, or ok without a code, is a success. */
  lemma ExitCodeExactly(f: Frame)
    requires f.Verdict?
    ensures f.exitCode.Some? ==>
      && -0x8000_0000 <= ExitCode(f) < 0x8000_0000 && (f.exitCode.value - ExitCode(f)) % 0x1_0000_0000 == 0
      && (-0x8000_0000 <= f.exitCode.value < 0x8000_0000 ==> ExitCode(f) == f.exitCode.value)
    ensures f.exitCode.None? && f.ok.Some? ==> ExitCode(f) == if f.ok.value then 0 else 1
    ensures f.exitCode.None? && f.ok.None? ==> ExitCode(f) == 76
    ensures ExitCode(f) == 0 <==>
      if f.exitCode.Some? then f.exitCode.value % 0x1_0000_0000 == 0 else f.ok == Some(true)
  {
  }

  // ---- what is kept ------------------------------------------------------------------------------------------

  datatype Outcome = Kept(bytes: seq<Byte>) | Failed(code: int)

  function Limit(expected: Option<nat>): nat {
    if expected.Some? then MAX_TRANSFER_FRAME else MAX_REPLY_FRAME
  }

  /** The bytes of a data frame that is the next one and fits. */
  function Next(f: Frame, expected: Option<nat>, received: nat, number: nat): Option<seq<Byte>> {
    if !f.Data? || expected.None? || f.number != Some(number) || f.b64.None? then None
    else
      match Chunk(f.b64.value)
      case None => None
      case Some(b) => if b == [] || received + |b| > expected.value then None else Some(b)
  }

  /** What a client that has received `got` in `number` data frames makes of the rest. */
  function Result(ps: seq<Packet>, expected: Option<nat>, got: seq<Byte>, number: nat): Outcome {
    if ps == [] || ps[0].length > Limit(expected) then Failed(TEMP_FAIL)
    else
      match ps[0].frame
      case Hello => Result(ps[1..], expected, got, number)
      case Output => Result(ps[1..], expected, got, number)
      case Announce(size) =>
        if expected.Some? || size.None? then Failed(DATA_ERR) else Result(ps[1..], size, got, number)
      case Data(_, _) =>
        (match Next(ps[0].frame, expected, |got|, number)
         case None => Failed(DATA_ERR)
         case Some(b) => Result(ps[1..], expected, got + b, number + 1))
      case Verdict(_, _) =>
        var code := ExitCode(ps[0].frame);
        if code != 0 then Failed(code) else if expected != Some(|got|) then Failed(DATA_ERR) else Kept(got)
      case _ => Failed(DATA_ERR)
  }

  // ---- what is sent ------------------------------------------------------------------------------------------

  function Join(chunks: seq<seq<Byte>>): seq<Byte> {
    if chunks == [] then [] else chunks[0] + Join(chunks[1..])
  }

  predicate Sendable(chunks: seq<seq<Byte>>) {
    forall i :: 0 <= i < |chunks| ==> 1 <= |chunks[i]| <= CHUNK_BYTES
  }

  function DataFrames(chunks: seq<seq<Byte>>, from: nat): seq<Frame> {
    if chunks == [] then [] else [Data(Some(from), Some(Encoded(chunks[0])))] + DataFrames(chunks[1..], from + 1)
  }

  function Quiet(ps: seq<Packet>): seq<Frame> {
    if ps == [] then []
    else if ps[0].frame.Hello? || ps[0].frame.Output? then Quiet(ps[1..])
    else [ps[0].frame] + Quiet(ps[1..])
  }

  /** Every frame is short enough for what has been announced before it. */
  predicate Short(ps: seq<Packet>, expected: Option<nat>) {
    || ps == []
    || (ps[0].length <= Limit(expected) && Short(ps[1..], if ps[0].frame.Announce? then ps[0].frame.size else expected))
  }

  /** Up to frame k, greetings and output apart: the announcement unless it was seen before, the data of the chunks in
      order, and then a successful verdict, the announced number of bytes in all. */
  predicate Delivers(
    ps: seq<Packet>, k: nat, chunks: seq<seq<Byte>>, expected: Option<nat>, received: nat, number: nat) {
    && k < |ps| && ps[k].frame.Verdict? && ExitCode(ps[k].frame) == 0 && Sendable(chunks)
    && Short(ps[..k + 1], expected)
    && var total := received + |Join(chunks)|;
      if expected.Some? then expected.value == total && Quiet(ps[..k]) == DataFrames(chunks, number)
      else Quiet(ps[..k]) == [Announce(Some(total))] + DataFrames(chunks, number)
  }

  lemma Cons<T>(x: T, xs: seq<T>, y: T, ys: seq<T>)
    ensures [x] + xs == [y] + ys <==> x == y && xs == ys
  {
    assert ([x] + xs)[1..] == xs && ([y] + ys)[1..] == ys;
    assert ([x] + xs)[0] == x && ([y] + ys)[0] == y;
  }

  /** The first packet's part of Short and Quiet. */
  lemma Split(ps: seq<Packet>, k: nat, expected: Option<nat>)
    requires k + 1 < |ps|
    ensures Short(ps[..k + 2], expected) <==>
      && ps[0].length <= Limit(expected)
      && Short(ps[1..][..k + 1], if ps[0].frame.Announce? then ps[0].frame.size else expected)
    ensures Quiet(ps[..k + 1]) == (if ps[0].frame.Hello? || ps[0].frame.Output? then [] else [ps[0].frame])
      + Quiet(ps[1..][..k])
    ensures ps[1..][k] == ps[k + 1]
  {
    assert ps[..k + 2][1..] == ps[1..][..k + 1] && ps[..k + 1][1..] == ps[1..][..k];
  }

  lemma FirstNoise(ps: seq<Packet>, k: nat, chunks: seq<seq<Byte>>, expected: Option<nat>, received: nat, number: nat)
    requires ps != [] && (ps[0].frame.Hello? || ps[0].frame.Output?) && ps[0].length <= Limit(expected)
    ensures Delivers(ps[1..], k, chunks, expected, received, number) <==>
      Delivers(ps, k + 1, chunks, expected, received, number)
  {
    if k + 1 < |ps| { Split(ps, k, expected); }
  }

  lemma FirstAnnounce(ps: seq<Packet>, k: nat, chunks: seq<seq<Byte>>, received: nat, number: nat, n: nat)
    requires ps != [] && ps[0].frame == Announce(Some(n)) && ps[0].length <= MAX_REPLY_FRAME
    ensures Delivers(ps[1..], k, chunks, Some(n), received, number) <==>
      Delivers(ps, k + 1, chunks, None, received, number)
  {
    if k + 1 < |ps| {
      Split(ps, k, None);
      Cons(ps[0].frame, Quiet(ps[1..][..k]), Announce(Some(received + |Join(chunks)|)), DataFrames(chunks, number));
    }
  }

  lemma ConsChunk(b: seq<Byte>, chunks: seq<seq<Byte>>, number: nat)
    ensures DataFrames([b] + chunks, number) == [Data(Some(number), Some(Encoded(b)))] + DataFrames(chunks, number + 1)
    ensures Join([b] + chunks) == b + Join(chunks)
    ensures Sendable([b] + chunks) <==> 1 <= |b| <= CHUNK_BYTES && Sendable(chunks)
  {
    var all := [b] + chunks;
    assert all[1..] == chunks && all[0] == b;
    assert forall i :: 0 <= i < |chunks| ==> chunks[i] == all[i + 1];
    assert forall i :: 1 <= i < |all| ==> all[i] == chunks[i - 1];
  }

  lemma FirstData(ps: seq<Packet>, k: nat, b: seq<Byte>, chunks: seq<seq<Byte>>, n: nat, received: nat, number: nat)
    requires ps != [] && ps[0].frame == Data(Some(number), Some(Encoded(b)))
    requires ps[0].length <= MAX_TRANSFER_FRAME && 1 <= |b| <= CHUNK_BYTES
    ensures Delivers(ps[1..], k, chunks, Some(n), received + |b|, number + 1) <==>
      Delivers(ps, k + 1, [b] + chunks, Some(n), received, number)
  {
    ConsChunk(b, chunks, number);
    if k + 1 < |ps| {
      Split(ps, k, Some(n));
      Cons(ps[0].frame, Quiet(ps[1..][..k]), ps[0].frame, DataFrames(chunks, number + 1));
    }
  }

  /** The next data frame is the encoding of a chunk. */
  lemma NextIs(f: Frame, expected: Option<nat>, received: nat, number: nat, b: seq<Byte>)
    ensures Next(f, expected, received, number) == Some(b) <==>
      && f == Data(Some(number), Some(Encoded(b))) && expected.Some?
      && 1 <= |b| <= CHUNK_BYTES && received + |b| <= expected.value
  {
    if f.Data? && f.b64.Some? { ChunkExact(f.b64.value, b); }
  }

  // ---- kept exactly when delivered ---------------------------------------------------------------------------

  /** The first frame of what is left to deliver. */
  lemma TakeChunk(ps: seq<Packet>, k: nat, chunks: seq<seq<Byte>>, n: nat, received: nat, number: nat)
    requires Delivers(ps, k, chunks, Some(n), received, number) && k > 0 && !ps[0].frame.Hello? && !ps[0].frame.Output?
    ensures chunks != [] && Next(ps[0].frame, Some(n), received, number) == Some(chunks[0])
    ensures Join(chunks) == chunks[0] + Join(chunks[1..])
    ensures Delivers(ps[1..], k - 1, chunks[1..], Some(n), received + |chunks[0]|, number + 1)
    ensures ps[0].length <= MAX_TRANSFER_FRAME
  {
    Split(ps, k - 1, Some(n));
    assert DataFrames(chunks, number) != [];
    var f, b, rest := ps[0].frame, chunks[0], chunks[1..];
    assert chunks == [b] + rest;
    ConsChunk(b, rest, number);
    Cons(f, Quiet(ps[1..][..k - 1]), Data(Some(number), Some(Encoded(b))), DataFrames(rest, number + 1));
    FirstData(ps, k - 1, b, rest, n, received, number);
    NextIs(f, Some(n), received, number, b);
  }

  lemma TakeAnnounce(ps: seq<Packet>, k: nat, chunks: seq<seq<Byte>>, received: nat, number: nat)
    requires Delivers(ps, k, chunks, None, received, number) && k > 0 && !ps[0].frame.Hello? && !ps[0].frame.Output?
    ensures ps[0].frame == Announce(Some(received + |Join(chunks)|)) && ps[0].length <= MAX_REPLY_FRAME
    ensures Delivers(ps[1..], k - 1, chunks, Some(received + |Join(chunks)|), received, number)
  {
    var n := received + |Join(chunks)|;
    Split(ps, k - 1, None);
    Cons(ps[0].frame, Quiet(ps[1..][..k - 1]), Announce(Some(n)), DataFrames(chunks, number));
    FirstAnnounce(ps, k - 1, chunks, received, number, n);
  }

  lemma NothingLeft(ps: seq<Packet>, chunks: seq<seq<Byte>>, expected: Option<nat>, received: nat, number: nat)
    requires Delivers(ps, 0, chunks, expected, received, number)
    ensures chunks == [] && expected == Some(received) && ps[0].length <= Limit(expected)
  {
    assert ps[..0] == [] && ps[..1] == [ps[0]];
    assert DataFrames(chunks, number) == [] ==> chunks == [];
  }

  lemma TakeNoise(ps: seq<Packet>, k: nat, chunks: seq<seq<Byte>>, expected: Option<nat>, got: seq<Byte>, number: nat)
    requires Delivers(ps, k, chunks, expected, |got|, number) && k > 0 && (ps[0].frame.Hello? || ps[0].frame.Output?)
    ensures Delivers(ps[1..], k - 1, chunks, expected, |got|, number)
    ensures Result(ps, expected, got, number) == Result(ps[1..], expected, got, number)
  {
    Split(ps, k - 1, expected);
    FirstNoise(ps, k - 1, chunks, expected, |got|, number);
  }

  lemma ResultOfData(ps: seq<Packet>, n: nat, got: seq<Byte>, number: nat, b: seq<Byte>)
    requires ps != [] && ps[0].frame.Data? && ps[0].length <= MAX_TRANSFER_FRAME
    requires Next(ps[0].frame, Some(n), |got|, number) == Some(b)
    ensures Result(ps, Some(n), got, number) == Result(ps[1..], Some(n), got + b, number + 1)
  {
  }

  lemma TakeData(ps: seq<Packet>, k: nat, chunks: seq<seq<Byte>>, n: nat, got: seq<Byte>, number: nat)
    requires Delivers(ps, k, chunks, Some(n), |got|, number) && k > 0 && !ps[0].frame.Hello? && !ps[0].frame.Output?
    ensures chunks != [] && got + Join(chunks) == (got + chunks[0]) + Join(chunks[1..])
    ensures Delivers(ps[1..], k - 1, chunks[1..], Some(n), |got + chunks[0]|, number + 1)
    ensures Result(ps, Some(n), got, number) == Result(ps[1..], Some(n), got + chunks[0], number + 1)
  {
    TakeChunk(ps, k, chunks, n, |got|, number);
    ResultOfData(ps, n, got, number, chunks[0]);
    Assoc(got, chunks[0], Join(chunks[1..]));
  }

  lemma {:induction false} DeliveredIsKept(
    ps: seq<Packet>, k: nat, chunks: seq<seq<Byte>>, expected: Option<nat>, got: seq<Byte>, number: nat)
    requires Delivers(ps, k, chunks, expected, |got|, number)
    ensures Result(ps, expected, got, number) == Kept(got + Join(chunks))
    decreases |ps|
  {
    var f := ps[0].frame;
    if k == 0 {
      NothingLeft(ps, chunks, expected, |got|, number);
      assert got + [] == got;
    } else if f.Hello? || f.Output? {
      TakeNoise(ps, k, chunks, expected, got, number);
      DeliveredIsKept(ps[1..], k - 1, chunks, expected, got, number);
    } else if expected.None? {
      TakeAnnounce(ps, k, chunks, |got|, number);
      DeliveredIsKept(ps[1..], k - 1, chunks, f.size, got, number);
    } else {
      TakeData(ps, k, chunks, expected.value, got, number);
      DeliveredIsKept(ps[1..], k - 1, chunks[1..], expected, got + chunks[0], number + 1);
    }
  }

  lemma AddChunk(ps: seq<Packet>, k: nat, b: seq<Byte>, chunks: seq<seq<Byte>>, n: nat, got: seq<Byte>, number: nat)
    returns (k': nat, chunks': seq<seq<Byte>>)
    requires ps != [] && ps[0].frame == Data(Some(number), Some(Encoded(b)))
    requires ps[0].length <= MAX_TRANSFER_FRAME && 1 <= |b| <= CHUNK_BYTES
    requires Delivers(ps[1..], k, chunks, Some(n), |got| + |b|, number + 1)
    ensures Delivers(ps, k', chunks', Some(n), |got|, number) && got + Join(chunks') == (got + b) + Join(chunks)
  {
    FirstData(ps, k, b, chunks, n, |got|, number);
    ConsChunk(b, chunks, number);
    Assoc(got, b, Join(chunks));
    k', chunks' := k + 1, [b] + chunks;
  }

  lemma {:induction false} KeptIsDelivered(ps: seq<Packet>, expected: Option<nat>, got: seq<Byte>, number: nat)
    returns (k: nat, chunks: seq<seq<Byte>>)
    requires Result(ps, expected, got, number).Kept?
    ensures Delivers(ps, k, chunks, expected, |got|, number)
    ensures Result(ps, expected, got, number).bytes == got + Join(chunks)
    decreases |ps|
  {
    var f := ps[0].frame;
    if f.Verdict? {
      k, chunks := 0, [];
      assert ps[..0] == [] && ps[..1] == [ps[0]] && ps[..1][1..] == [] && got + [] == got;
    } else if f.Announce? {
      k, chunks := KeptIsDelivered(ps[1..], f.size, got, number);
      FirstAnnounce(ps, k, chunks, |got|, number, f.size.value);
      k := k + 1;
    } else if f.Data? {
      var b := Next(f, expected, |got|, number).value;
      NextIs(f, expected, |got|, number, b);
      k, chunks := KeptIsDelivered(ps[1..], expected, got + b, number + 1);
      k, chunks := AddChunk(ps, k, b, chunks, expected.value, got, number);
    } else {
      k, chunks := KeptIsDelivered(ps[1..], expected, got, number);
      FirstNoise(ps, k, chunks, expected, |got|, number);
      k := k + 1;
    }
  }

  /** A download is kept exactly when the daemon announced it, sent its bytes in canonical chunks, in order and no more
      than announced, and ended with a successful verdict; what is kept is then the chunks, joined. */
  lemma KeptExactly(ps: seq<Packet>, bytes: seq<Byte>)
    ensures Result(ps, None, [], 0) == Kept(bytes) <==>
      exists k, chunks :: Delivers(ps, k, chunks, None, 0, 0) && Join(chunks) == bytes
  {
    if Result(ps, None, [], 0) == Kept(bytes) {
      var k, chunks := KeptIsDelivered(ps, None, [], 0);
      assert [] + Join(chunks) == Join(chunks);
    }
    forall k, chunks | Delivers(ps, k, chunks, None, 0, 0) && Join(chunks) == bytes
      ensures Result(ps, None, [], 0) == Kept(bytes)
    {
      DeliveredIsKept(ps, k, chunks, None, [], 0);
      assert [] + Join(chunks) == Join(chunks);
    }
  }

  /** What ends a download without its being kept: the connection, or a frame that is too long (512 KiB after the
      announcement, 64 MiB before it), is 75; a frame out of place, and a success that comes too early, are 65. */
  lemma MalformedIsRefused(ps: seq<Packet>, expected: Option<nat>, got: seq<Byte>, number: nat)
    ensures ps == [] ==> Result(ps, expected, got, number) == Failed(75)
    ensures var limit := if expected.Some? then 524288 else 67108864;
      && (ps != [] && ps[0].length > limit ==> Result(ps, expected, got, number) == Failed(75))
      && (ps != [] && ps[0].length <= limit && OutOfPlace(ps[0].frame, expected, |got|, number) ==>
        Result(ps, expected, got, number) == Failed(65))
  {
    if ps != [] && ps[0].frame.Data? && Next(ps[0].frame, expected, |got|, number).Some? {
      var b := Next(ps[0].frame, expected, |got|, number).value;
      NextIs(ps[0].frame, expected, |got|, number, b);
    }
  }

  ghost predicate OutOfPlace(f: Frame, expected: Option<nat>, received: nat, number: nat) {
    match f
    case Hello => false
    case Output => false
    case Announce(size) => expected.Some? || size.None?
    case Data(n, text) =>
      !(expected.Some? && n == Some(number) && text.Some? && exists b: seq<Byte> ::
          text.value == Encoded(b) && 1 <= |b| <= 262144 && received + |b| <= expected.value)
    case Verdict(_, _) => ExitCode(f) == 0 && expected != Some(received)
    case _ => true
  }

  /** A verdict that is a failure is passed on, whatever came before it was taken. */
  lemma {:induction false} RefusalIsPassedOn(
    ps: seq<Packet>, k: nat, expected: Option<nat>, got: seq<Byte>, number: nat)
    requires k < |ps| && ps[k].frame.Verdict? && ExitCode(ps[k].frame) != 0 && ps[k].length <= Limit(expected)
    requires forall i :: 0 <= i < k ==> (ps[i].frame.Hello? || ps[i].frame.Output?) && ps[i].length <= Limit(expected)
    ensures Result(ps, expected, got, number) == Failed(ExitCode(ps[k].frame))
    decreases k
  {
    if k > 0 {
      assert ps[1..][k - 1] == ps[k] && forall i :: 0 <= i < k - 1 ==> ps[1..][i] == ps[i + 1];
      RefusalIsPassedOn(ps[1..], k - 1, expected, got, number);
    }
  }

  // ---- download ----------------------------------------------------------------------------------------------

  class Disk {
    var files: map<string, seq<Byte>>
  }

  /** How much the local file takes before a write fails, and whether it can be finished and renamed. */
  datatype Local = Local(room: nat, finishes: bool, renames: bool)

  /** Where a download goes: a temporary file beside the target. */
  class GetSink {
    const disk: Disk
    const target: string
    const temp: string
    var committed: bool

    ghost predicate Open(written: seq<Byte>)
      reads this, disk
    {
      !committed && temp != target && temp in disk.files && disk.files[temp] == written
    }

    constructor (d: Disk, to: string, through: string)
      requires through !in d.files && through != to
      modifies d
      ensures disk == d && target == to && temp == through && Open([]) && d.files == old(d.files)[through := []]
    {
      disk, target, temp, committed := d, to, through, false;
      new;
      d.files := d.files[through := []];
    }

    /** write(2) until everything is written or nothing more goes. */
    method Write(bytes: seq<Byte>, room: nat, counts: seq<nat>, ghost written: seq<Byte>) returns (ok: bool)
      requires Open(written) && |written| <= room
      modifies disk
      ensures disk.files.Keys == old(disk.files.Keys) && disk.files == old(disk.files)[temp := disk.files[temp]]
      ensures !committed
      ensures ok <==> |written| + |bytes| <= room
      ensures ok ==> Open(written + bytes)
    {
      var p, left := 0, room - |disk.files[temp]|;
      var step := 0;
      while p < |bytes|
        invariant 0 <= p <= |bytes| && 0 <= left && |written| + p + left == room
        invariant temp in disk.files && disk.files[temp] == written + bytes[..p]
        invariant disk.files == old(disk.files)[temp := disk.files[temp]]
        decreases |bytes| - p
      {
        if left == 0 { return false; }
        var most := if left < |bytes| - p then left else |bytes| - p;
        var w := if step < |counts| && 1 <= counts[step] < most then counts[step] else most;
        assert written + bytes[..p] + bytes[p..p + w] == written + bytes[..p + w];
        disk.files := disk.files[temp := disk.files[temp] + bytes[p..p + w]];
        p, left, step := p + w, left - w, step + 1;
      }
      assert bytes[..p] == bytes;
      ok := true;
    }

    /** fchmod, fsync, rename. */
    method Commit(local: Local, ghost written: seq<Byte>) returns (ok: bool)
      requires Open(written)
      modifies this, disk
      ensures ok <==> local.finishes && local.renames
      ensures ok ==> committed && disk.files == old(disk.files)[target := written] - {temp}
      ensures !ok ==> disk.files == if committed then old(disk.files) - {temp} else old(disk.files)
    {
      if !local.finishes { return false; }
      if !local.renames {
        disk.files := disk.files - {temp};
        committed := true;
        return false;
      }
      disk.files := disk.files[target := disk.files[temp]] - {temp};
      committed := true;
      ok := true;
    }

    /** What the destructor does. */
    method Close()
      modifies disk
      ensures disk.files == if committed then old(disk.files) else old(disk.files) - {temp}
    {
      if !committed { disk.files := disk.files - {temp}; }
    }
  }

  /** What was received stays at the front of what is kept. */
  lemma {:induction false} KeptExtends(ps: seq<Packet>, expected: Option<nat>, got: seq<Byte>, number: nat)
    requires Result(ps, expected, got, number).Kept?
    ensures |got| <= |Result(ps, expected, got, number).bytes|
    decreases |ps|
  {
    var f := ps[0].frame;
    if f.Announce? {
      KeptExtends(ps[1..], f.size, got, number);
    } else if f.Data? {
      KeptExtends(ps[1..], expected, got + Next(f, expected, |got|, number).value, number + 1);
    } else if f.Hello? || f.Output? {
      KeptExtends(ps[1..], expected, got, number);
    }
  }

  lemma NoRoom(ps: seq<Packet>, rest: seq<Packet>, expected: Option<nat>, got: seq<Byte>, number: nat, local: Local)
    requires Result(ps, None, [], 0) == Result(rest, expected, got, number) && |got| > local.room
    ensures Result(ps, None, [], 0).Kept? ==> |Result(ps, None, [], 0).bytes| > local.room
  {
    if Result(rest, expected, got, number).Kept? { KeptExtends(rest, expected, got, number); }
  }

  /** One frame that does not end the download. */
  lemma GoesOn(ps: seq<Packet>, expected: Option<nat>, got: seq<Byte>, number: nat)
    requires ps != [] && ps[0].length <= Limit(expected)
    ensures ps[0].frame.Hello? || ps[0].frame.Output? ==>
      Result(ps, expected, got, number) == Result(ps[1..], expected, got, number)
    ensures ps[0].frame.Announce? && expected.None? && ps[0].frame.size.Some? ==>
      Result(ps, expected, got, number) == Result(ps[1..], ps[0].frame.size, got, number)
    ensures var b := Next(ps[0].frame, expected, |got|, number);
      b.Some? ==> Result(ps, expected, got, number) == Result(ps[1..], expected, got + b.value, number + 1)
  {
  }

  /** The bytes of a data frame that is the next one and fits. */
  method Receive(f: Frame, expected: Option<nat>, received: nat, number: nat) returns (b: Option<seq<Byte>>)
    requires expected.Some? ==> received <= expected.value
    ensures b == Next(f, expected, received, number)
  {
    if !f.Data? || expected.None? || f.number != Some(number) || f.b64.None? { return None; }
    b := DecodeChunk(f.b64.value);
    var left: nat := expected.value - received;
    if b.None? || b.value == [] || |b.value| > left { return None; }
  }

  /** run_get: 0 exactly when the daemon answered, its frames are to be kept and the disk took them; the target then
      holds just those bytes. Otherwise only the temporary file has changed. */
  method RunGet(ps: seq<Packet>, answers: bool, sink: GetSink, local: Local, counts: seq<nat>) returns (code: int)
    requires sink.Open([])
    modifies sink, sink.disk
    ensures code == 0 <==> answers && Stored(ps, local)
    ensures code == 0 ==>
      && sink.committed
      && sink.disk.files == old(sink.disk.files)[sink.target := Result(ps, None, [], 0).bytes] - {sink.temp}
    ensures code != 0 ==> sink.disk.files - {sink.temp} == old(sink.disk.files) - {sink.temp}
    ensures code != 0 && sink.committed ==> sink.temp !in sink.disk.files
    ensures !answers ==> code == 75
    ensures answers && code != 0 && code != 74 ==>
      match Result(ps, None, [], 0) case Failed(c) => code == c case Kept(_) => code == 73
    ensures answers && code == 74 && Result(ps, None, [], 0).Kept? ==>
      |Result(ps, None, [], 0).bytes| > local.room
  {
    if !answers { return TEMP_FAIL; }
    var i, received, number := 0, 0, 0;
    var expected: Option<nat> := None;
    ghost var got: seq<Byte> := [];
    assert ps[0..] == ps;
    while true
      invariant 0 <= i <= |ps| && received == |got| <= local.room && sink.Open(got)
      invariant if expected.Some? then received <= expected.value else received == 0
      invariant sink.disk.files == old(sink.disk.files)[sink.temp := got]
      invariant Result(ps, None, [], 0) == Result(ps[i..], expected, got, number)
      decreases |ps| - i
    {
      var limit := if expected.Some? then MAX_TRANSFER_FRAME else MAX_REPLY_FRAME;
      if i == |ps| || ps[i].length > limit { return TEMP_FAIL; }
      var f := ps[i].frame;
      assert ps[i..][1..] == ps[i + 1..];
      GoesOn(ps[i..], expected, got, number);
      if f.Announce? {
        if expected.Some? || f.size.None? { return DATA_ERR; }
        expected := f.size;
      } else if f.Data? {
        var b := Receive(f, expected, received, number);
        if b.None? { return DATA_ERR; }
        var ok := sink.Write(b.value, local.room, counts, got);
        if !ok {
          NoRoom(ps, ps[i + 1..], expected, got + b.value, number + 1, local);
          return IO_ERR;
        }
        got := got + b.value;
        received, number := received + |b.value|, number + 1;
      } else if f.Verdict? {
        if ExitCode(f) != 0 { return ExitCode(f); }
        if expected != Some(received) { return DATA_ERR; }
        var ok := sink.Commit(local, got);
        return if ok then 0 else CANT_CREATE;
      } else if !f.Hello? && !f.Output? {
        return DATA_ERR;
      }
      i := i + 1;
    }
  }

  /** The frames deliver a download that the local disk takes. */
  predicate Stored(ps: seq<Packet>, local: Local) {
    var r := Result(ps, None, [], 0);
    r.Kept? && |r.bytes| <= local.room && local.finishes && local.renames
  }

  /** `vh fs get --output`: afterwards the target holds exactly the bytes delivered, or the disk is as it was. */
  method Get(ps: seq<Packet>, answers: bool, disk: Disk, target: string, temp: string, local: Local, counts: seq<nat>)
    returns (code: int)
    requires temp !in disk.files && temp != target
    modifies disk
    ensures code == 0 <==> answers && Stored(ps, local)
    ensures disk.files ==
      if code == 0 then old(disk.files)[target := Result(ps, None, [], 0).bytes] else old(disk.files)
  {
    var sink := new GetSink(disk, target, temp);
    code := RunGet(ps, answers, sink, local, counts);
    sink.Close();
    assert old(disk.files)[temp := []] - {temp} == old(disk.files);
    assert code == 0 ==> disk.files == old(disk.files)[target := Result(ps, None, [], 0).bytes];
  }

  // ---- upload ------------------------------------------------------------------------------------------------

  lemma {:induction false} SnocChunk(chunks: seq<seq<Byte>>, b: seq<Byte>, number: nat)
    ensures DataFrames(chunks + [b], number) ==
      DataFrames(chunks, number) + [Data(Some(number + |chunks|), Some(Encoded(b)))]
    ensures Join(chunks + [b]) == Join(chunks) + b
  {
    if chunks == [] {
      assert chunks + [b] == [b] + [] && [b][1..] == [];
      ConsChunk(b, [], number);
      assert b + [] == b;
    } else {
      SnocChunk(chunks[1..], b, number + 1);
      assert chunks + [b] == [chunks[0]] + (chunks[1..] + [b]);
      ConsChunk(chunks[0], chunks[1..] + [b], number);
      Assoc(chunks[0], Join(chunks[1..]), b);
    }
  }

  /** What interrupts an upload: pread(2) results (0 for a failure, otherwise at most that much), the chunk before which
      the daemon speaks, and the frame whose sending fails. */
  datatype Line = Line(counts: seq<nat>, spokenAt: Option<nat>, sendsUntil: Option<nat>)

  datatype Streamed = Whole | Changed | Stopped

  /** How many bytes one pread(2) gives: at most a chunk, what is wanted, what is there, and what its count says. */
  function PreadCount(there: nat, wanted: nat, counts: seq<nat>, number: nat): nat {
    var n := Least(CHUNK_BYTES, Least(there, wanted));
    if number < |counts| then Least(n, counts[number]) else n
  }

  function Least(a: nat, b: nat): nat {
    if a < b then a else b
  }

  /** The first `offset` bytes of the file are sent. */
  ghost predicate Streaming(content: seq<Byte>, size: nat, chunks: seq<seq<Byte>>, sent: seq<Frame>, offset: nat) {
    && Sendable(chunks) && sent == DataFrames(chunks, 0)
    && offset <= size && offset <= |content| && Join(chunks) == content[..offset]
  }

  lemma StreamMore(
    content: seq<Byte>, size: nat, chunks: seq<seq<Byte>>, sent: seq<Frame>, offset: nat, n: nat, b: seq<Byte>)
    requires Streaming(content, size, chunks, sent, offset)
    requires 0 < n <= CHUNK_BYTES && offset + n <= size && offset + n <= |content| && b == content[offset..offset + n]
    ensures Streaming(content, size, chunks + [b], sent + [Data(Some(|chunks|), Some(Encoded(b)))], offset + n)
  {
    SnocChunk(chunks, b, 0);
    assert content[..offset] + b == content[..offset + n];
  }

  /** The i-th chunk is as long as a chunk may be, as is wanted, as there is, or as its read gives, whichever is
      least. */
  ghost predicate SizeOk(content: seq<Byte>, size: nat, counts: seq<nat>, chunks: seq<seq<Byte>>, i: nat)
    requires i < |chunks|
  {
    var n, offset := |chunks[i]|, |Join(chunks[..i])|;
    && 0 < n <= CHUNK_BYTES && offset + n <= size && offset + n <= |content| && (i < |counts| ==> n <= counts[i])
    && (n == CHUNK_BYTES || offset + n == size || offset + n == |content| || (i < |counts| && n == counts[i]))
  }

  /** One stream of the file: chunks of its first bytes, numbered from 0, each as long as it can be, up to the first
      interruption; then the end mark exactly when all the bytes that were announced have been sent, or the abort mark
      when the file could not be read that far. */
  ghost predicate IsStream(
    sent: seq<Frame>, how: Streamed, content: seq<Byte>, size: nat, line: Line, chunks: seq<seq<Byte>>) {
    && sent == DataFrames(chunks, 0) + (match how case Whole => [End(size)] case Changed => [Abort] case Stopped => [])
    && Join(chunks) <= content && |Join(chunks)| <= size
    && Sized(content, size, line.counts, chunks) && Uninterrupted(line, |chunks|)
    && (how.Whole? <==> |Join(chunks)| == size)
    && (how.Stopped? ==> line.spokenAt == Some(|chunks|) || line.sendsUntil == Some(|chunks|))
    && (how.Changed? ==>
      |Join(chunks)| == |content| || (|chunks| < |line.counts| && line.counts[|chunks|] == 0))
  }

  ghost predicate Sized(content: seq<Byte>, size: nat, counts: seq<nat>, chunks: seq<seq<Byte>>) {
    forall i :: 0 <= i < |chunks| ==> SizeOk(content, size, counts, chunks, i)
  }

  /** Nothing interrupts the stream before its n-th chunk. */
  ghost predicate Uninterrupted(line: Line, n: nat) {
    forall i: nat :: i < n ==> line.spokenAt != Some(i) && line.sendsUntil != Some(i)
  }

  /** A stream so far: nothing has interrupted it, and the first `offset` bytes are sent. */
  ghost predicate Sofar(
    content: seq<Byte>, size: nat, line: Line, chunks: seq<seq<Byte>>, sent: seq<Frame>, offset: nat) {
    && Streaming(content, size, chunks, sent, offset)
    && Sized(content, size, line.counts, chunks) && Uninterrupted(line, |chunks|)
  }

  lemma SizedMore(content: seq<Byte>, size: nat, counts: seq<nat>, chunks: seq<seq<Byte>>, b: seq<Byte>)
    requires Sized(content, size, counts, chunks) && SizeOk(content, size, counts, chunks + [b], |chunks|)
    ensures Sized(content, size, counts, chunks + [b])
  {
    forall i | 0 <= i < |chunks| + 1 ensures SizeOk(content, size, counts, chunks + [b], i) {
      if i < |chunks| {
        assert SizeOk(content, size, counts, chunks, i);
        assert (chunks + [b])[..i] == chunks[..i] && (chunks + [b])[i] == chunks[i];
      }
    }
  }

  lemma SizeNew(content: seq<Byte>, size: nat, counts: seq<nat>, chunks: seq<seq<Byte>>, offset: nat, b: seq<Byte>)
    requires |Join(chunks)| == offset && offset < size && offset <= |content| && |b| > 0
    requires |b| == PreadCount(|content| - offset, size - offset, counts, |chunks|)
    ensures SizeOk(content, size, counts, chunks + [b], |chunks|)
  {
    assert (chunks + [b])[..|chunks|] == chunks;
  }

  lemma PreadNothing(there: nat, wanted: nat, counts: seq<nat>, number: nat)
    ensures var n := PreadCount(there, wanted, counts, number); n <= there && n <= wanted && n <= CHUNK_BYTES
    ensures PreadCount(there, wanted, counts, number) == 0 && wanted > 0 ==>
      there == 0 || (number < |counts| && counts[number] == 0)
  {
  }

  lemma SofarMore(
    content: seq<Byte>, size: nat, line: Line, chunks: seq<seq<Byte>>, sent: seq<Frame>, offset: nat, n: nat,
    b: seq<Byte>)
    requires Sofar(content, size, line, chunks, sent, offset) && offset < size
    requires line.spokenAt != Some(|chunks|) && line.sendsUntil != Some(|chunks|) && n > 0
    requires n == PreadCount(|content| - offset, size - offset, line.counts, |chunks|)
    requires offset + n <= |content| && b == content[offset..offset + n]
    ensures Sofar(content, size, line, chunks + [b], sent + [Data(Some(|chunks|), Some(Encoded(b)))], offset + n)
  {
    PreadNothing(|content| - offset, size - offset, line.counts, |chunks|);
    StreamMore(content, size, chunks, sent, offset, n, b);
    SizeNew(content, size, line.counts, chunks, offset, b);
    SizedMore(content, size, line.counts, chunks, b);
    UninterruptedMore(line, |chunks|);
  }

  lemma UninterruptedMore(line: Line, n: nat)
    requires Uninterrupted(line, n) && line.spokenAt != Some(n) && line.sendsUntil != Some(n)
    ensures Uninterrupted(line, n + 1)
  {
  }

  lemma SofarEnds(
    content: seq<Byte>, size: nat, line: Line, chunks: seq<seq<Byte>>, sent: seq<Frame>, offset: nat, how: Streamed)
    requires Sofar(content, size, line, chunks, sent, offset) && (how.Whole? <==> offset == size)
    requires how.Stopped? ==> line.spokenAt == Some(|chunks|) || line.sendsUntil == Some(|chunks|)
    requires how.Changed? ==> PreadCount(|content| - offset, size - offset, line.counts, |chunks|) == 0
    ensures var mark := match how case Whole => [End(size)] case Changed => [Abort] case Stopped => [];
      IsStream(sent + mark, how, content, size, line, chunks)
  {
    if how.Changed? { PreadNothing(|content| - offset, size - offset, line.counts, |chunks|); }
  }

  method Stream(content: seq<Byte>, size: nat, line: Line) returns (sent: seq<Frame>, how: Streamed)
    ensures exists chunks :: IsStream(sent, how, content, size, line, chunks)
  {
    sent := [];
    ghost var chunks := [];
    var offset, number := 0, 0;
    while offset < size && line.spokenAt != Some(number)
      invariant Sofar(content, size, line, chunks, sent, offset) && number == |chunks|
      decreases size - offset
    {
      var n := PreadCount(|content| - offset, size - offset, line.counts, number);
      PreadNothing(|content| - offset, size - offset, line.counts, number);
      if n == 0 {
        SofarEnds(content, size, line, chunks, sent, offset, Changed);
        return sent + [Abort], Changed;
      }
      if line.sendsUntil == Some(number) {
        SofarEnds(content, size, line, chunks, sent, offset, Stopped);
        return sent + [], Stopped;
      }
      var b := content[offset..offset + n];
      var b64 := Encode(b);
      SofarMore(content, size, line, chunks, sent, offset, n, b);
      sent := sent + [Data(Some(number), Some(b64))];
      chunks := chunks + [b];
      offset, number := offset + n, number + 1;
    }
    how := if offset == size then Whole else Stopped;
    SofarEnds(content, size, line, chunks, sent, offset, how);
    sent := sent + if offset == size then [End(size)] else [];
  }

  /** Its chunks can be sent, that is, received. */
  lemma StreamSends(
    sent: seq<Frame>, how: Streamed, content: seq<Byte>, size: nat, line: Line, chunks: seq<seq<Byte>>)
    requires IsStream(sent, how, content, size, line, chunks)
    ensures Sendable(chunks)
  {
    forall i | 0 <= i < |chunks| ensures 1 <= |chunks[i]| <= CHUNK_BYTES {
      assert SizeOk(content, size, line.counts, chunks, i);
    }
  }

  /** Nothing interrupts the stream and every read gives something. */
  predicate Undisturbed(line: Line) {
    line.spokenAt.None? && line.sendsUntil.None? && forall i :: 0 <= i < |line.counts| ==> line.counts[i] > 0
  }

  /** An undisturbed stream of a file that is as long as announced is all of it and the end mark. */
  lemma UndisturbedIsWhole(
    sent: seq<Frame>, how: Streamed, content: seq<Byte>, size: nat, line: Line, chunks: seq<seq<Byte>>)
    requires IsStream(sent, how, content, size, line, chunks) && Undisturbed(line) && size <= |content|
    ensures how.Whole? && Join(chunks) == content[..size] && sent == DataFrames(chunks, 0) + [End(size)]
  {
  }

  /** What one client uploads whole, another downloads: the frames of a complete stream, relayed after an announcement
      of the same size and ended with a successful verdict, are kept as the file's bytes. */
  lemma PutThenGet(content: seq<Byte>, chunks: seq<seq<Byte>>, ps: seq<Packet>, k: nat)
    requires Sendable(chunks) && Join(chunks) == content
    requires k < |ps| && ps[k].frame == Verdict(Some(0), Some(true)) && Short(ps[..k + 1], None)
    requires Quiet(ps[..k]) == [Announce(Some(|content|))] + DataFrames(chunks, 0)
    ensures Result(ps, None, [], 0) == Kept(content)
  {
    assert Delivers(ps, k, chunks, None, 0, 0);
    DeliveredIsKept(ps, k, chunks, None, [], 0);
    assert [] + content == content;
  }

  predicate Accepted(ps: seq<Packet>, k: int) {
    0 <= k < |ps| && ps[k].frame.Verdict? && ExitCode(ps[k].frame) == 0
  }

  /** Frame k is the verdict, and nothing before it ends the upload. */
  predicate Judged(ps: seq<Packet>, k: int) {
    && 0 <= k < |ps| && ps[k].frame.Verdict? && ps[k].length <= MAX_REPLY_FRAME
    && forall i :: 0 <= i < k ==>
      ps[i].length <= MAX_REPLY_FRAME && (ps[i].frame.Hello? || ps[i].frame.Output? || ps[i].frame.Ready?)
  }

  /** No read of the local file fails. */
  predicate Readable(lines: seq<Line>) {
    forall i, j :: 0 <= i < |lines| && 0 <= j < |lines[i].counts| ==> lines[i].counts[j] > 0
  }

  /** What interrupts the i-th stream. */
  function LineAt(lines: seq<Line>, i: nat): Line {
    if i < |lines| then lines[i] else Line([], None, None)
  }

  /** How often the daemon asks for the file in its first k frames. */
  function Readies(ps: seq<Packet>, k: nat): nat
    requires k <= |ps|
  {
    if k == 0 then 0 else Readies(ps, k - 1) + if ps[k - 1].frame.Ready? then 1 else 0
  }

  /** The exit status and the frames sent by run_put: one stream of the file for each time the daemon asks, and then the
      daemon's verdict decides, whatever was streamed. */
  method RunPut(ps: seq<Packet>, answers: bool, content: seq<Byte>, size: nat, lines: seq<Line>)
    returns (code: int, streams: seq<seq<Frame>>, ghost hows: seq<Streamed>, ghost pieces: seq<seq<seq<Byte>>>)
    ensures code == 0 ==> answers && exists k :: Accepted(ps, k) && |streams| == Readies(ps, k)
    ensures AllStreams(streams, hows, content, size, lines, pieces)
    ensures answers && size <= |content| && Readable(lines) ==>
      forall k :: Judged(ps, k) ==> code == ExitCode(ps[k].frame) && |streams| == Readies(ps, k)
    ensures !answers ==> code == 75 && streams == []
    ensures forall i :: 0 <= i < |hows| && hows[i].Changed? ==> code == 74 && i == |hows| - 1
    ensures answers ==> exists k :: PutEnds(ps, k, code, hows)
  {
    streams, hows, pieces := [], [], [];
    if !answers { code := TEMP_FAIL; return; }
    for i := 0 to |ps|
      invariant AllStreams(streams, hows, content, size, lines, pieces)
      invariant forall j :: 0 <= j < |hows| ==> !hows[j].Changed?
      invariant forall k :: Judged(ps, k) && size <= |content| && Readable(lines) ==> i <= k
      invariant |streams| == Readies(ps, i)
      invariant forall j :: 0 <= j < i ==>
        ps[j].length <= 67108864 && (ps[j].frame.Hello? || ps[j].frame.Output? || ps[j].frame.Ready?)
    {
      if ps[i].length > MAX_REPLY_FRAME {
        code := TEMP_FAIL;
        assert PutEnds(ps, i, code, hows);
        return;
      }
      var f := ps[i].frame;
      if f.Verdict? {
        assert PutEnds(ps, i, ExitCode(f), hows);
        assert ExitCode(f) == 0 ==> Accepted(ps, i);
        code := ExitCode(f);
        return;
      }
      if f.Ready? {
        var line := if |streams| < |lines| then lines[|streams|] else Line([], None, None);
        var sent, how := Stream(content, size, line);
        ghost var chunks :| IsStream(sent, how, content, size, line, chunks);
        StreamsStay(streams, hows, content, size, lines, pieces, sent, how, chunks);
        streams, hows, pieces := streams + [sent], hows + [how], pieces + [chunks];
        if how.Changed? {
          code := IO_ERR;
          assert PutEnds(ps, i, code, hows);
          return;
        }
      } else if !f.Hello? && !f.Output? {
        code := DATA_ERR;
        assert PutEnds(ps, i, code, hows);
        return;
      }
    }
    code := TEMP_FAIL;
    assert PutEnds(ps, |ps|, code, hows);
  }

  /** The frame before which, or with which, an upload ends, and its exit status: the connection or a frame that is too
      long is 75, a verdict its own, a request for a file that cannot be read 74, and any other frame 65. */
  predicate PutEnds(ps: seq<Packet>, k: int, code: int, hows: seq<Streamed>) {
    && 0 <= k <= |ps|
    && (forall i :: 0 <= i < k ==>
      ps[i].length <= 67108864 && (ps[i].frame.Hello? || ps[i].frame.Output? || ps[i].frame.Ready?))
    && (if k == |ps| || ps[k].length > 67108864 then code == 75 && |hows| == Readies(ps, k)
        else match ps[k].frame
          case Verdict(_, _) => code == ExitCode(ps[k].frame) && |hows| == Readies(ps, k)
          case Ready => code == 74 && |hows| == Readies(ps, k) + 1 && hows[|hows| - 1].Changed?
          case Hello => false
          case Output => false
          case _ => code == 65 && |hows| == Readies(ps, k))
  }

  /** Every stream is one of the file, as far as its line lets it. */
  ghost predicate AllStreams(
    streams: seq<seq<Frame>>, hows: seq<Streamed>, content: seq<Byte>, size: nat, lines: seq<Line>,
    pieces: seq<seq<seq<Byte>>>) {
    && |hows| == |streams| == |pieces|
    && forall i :: 0 <= i < |streams| ==> IsStream(streams[i], hows[i], content, size, LineAt(lines, i), pieces[i])
  }

  lemma StreamsStay(
    streams: seq<seq<Frame>>, hows: seq<Streamed>, content: seq<Byte>, size: nat, lines: seq<Line>,
    pieces: seq<seq<seq<Byte>>>, sent: seq<Frame>, how: Streamed, chunks: seq<seq<Byte>>)
    requires AllStreams(streams, hows, content, size, lines, pieces)
    requires IsStream(sent, how, content, size, LineAt(lines, |streams|), chunks)
    ensures AllStreams(streams + [sent], hows + [how], content, size, lines, pieces + [chunks])
  {
  }
}
