/** Any interleaving of fat32_open, fat32_read and fat32_close, on any card, is a run of a small abstract
    machine: sixteen slots, each closed, at a position in a byte string, or stuck at one. */
module FatSession {
  import opened Bytes
  import opened Disk
  import opened FatVolume
  import opened FatHandle
  import opened FatFile
  import opened FatPath
  import opened FatNames
  import opened FatMount

  // ----- the abstract machine -----

  datatype Slot = Closed | At(file: seq<byte>, pos: nat) | Stuck(file: seq<byte>, pos: nat)

  datatype Call = OpenCall(path: seq<byte>, mode: u8) | ReadCall(id: u32, n: u32) | CloseCall(id: u32)

  /** A failed read still hands over the bytes that had arrived. */
  datatype Reply = Opened(id: nat) | Data(bytes: seq<byte>) | Partial(bytes: seq<byte>) | Done | Refused

  type Slots = s: seq<Slot> | |s| == 16 witness seq(16, _ => Closed)

  /** The file system: paths and what the files they name contain. */
  type Files = map<seq<byte>, seq<byte>>

  /** What the machine runs on: whether reads can fail, and how many bytes a cluster has. */
  datatype Medium = Medium(files: Files, reliable: bool, unit: nat)

  /** The lowest closed slot from i on, or the table's length. */
  function Lowest(slots: seq<Slot>, i: nat): (k: nat)
    decreases |slots| - i
  {
    if i >= |slots| || slots[i].Closed? then i else Lowest(slots, i + 1)
  }

  /** The call when no read fails. */
  function Step(files: Files, slots: Slots, call: Call): (Slots, Reply) {
    match call
    case OpenCall(path, _) =>
      var id := Lowest(slots, 0);
      if path in files && id < 16 then (slots[id := At(files[path], 0)], Opened(id)) else (slots, Refused)
    case ReadCall(id, n) =>
      if id < 16 && slots[id].At? && slots[id].pos <= |slots[id].file| then
        var end := slots[id].pos + Min(n, |slots[id].file| - slots[id].pos);
        (slots[id := At(slots[id].file, end)], Data(slots[id].file[slots[id].pos..end]))
      else
        (slots, Refused)
    case CloseCall(id) =>
      if id < 16 then (slots[id := Closed], Done) else (slots, Refused)
  }

  /** A read that fails on the way: a part of the bytes has arrived, and the slot stands behind them, ready
      for the next read, or stuck if that is where a cluster ends and the file goes on. */
  ghost predicate ReadFails(unit: nat, slots: Slots, id: u32, n: u32, reply: Reply, slots': Slots) {
    && id < 16 && slots[id].At? && reply.Partial? && slots[id].pos <= |slots[id].file|
    && var file, pos, d := slots[id].file, slots[id].pos, |reply.bytes|;
       && d <= Min(n, |file| - pos) && reply.bytes == file[pos..pos + d]
       && (slots' == slots[id := At(file, pos + d)]
           || (AtBoundary(unit, pos + d) && pos + d < |file| && slots' == slots[id := Stuck(file, pos + d)]))
  }

  ghost predicate AtBoundary(unit: nat, pos: nat) {
    exists c :: c > 0 && pos == Rows(c, unit)
  }

  /** What a call may do. Only a card that is not reliable can make it fail. */
  ghost predicate Steps(m: Medium, slots: Slots, call: Call, reply: Reply, slots': Slots) {
    || (slots', reply) == Step(m.files, slots, call)
    || (!m.reliable && match call
                       case OpenCall(_, _) => slots' == slots && reply == Refused
                       case ReadCall(id, n) => ReadFails(m.unit, slots, id, n, reply, slots')
                       case CloseCall(_) => false)
  }

  /** A read on a stuck slot, which the machine does not follow. */
  predicate OnStuck(slots: Slots, call: Call) {
    call.ReadCall? && call.id < 16 && slots[call.id].Stuck?
  }

  /** The replies to the first calls, and the slots before and after each of them. */
  ghost predicate Trace(m: Medium, calls: seq<Call>, replies: seq<Reply>, states: seq<Slots>) {
    && |replies| <= |calls| && |states| == |replies| + 1
    && forall i :: 0 <= i < |replies| ==> Steps(m, states[i], calls[i], replies[i], states[i + 1])
                                          && !OnStuck(states[i], calls[i])
  }

  // ----- what follows from the machine alone -----

  /** All bytes handed over on a handle, in order. */
  function Collected(calls: seq<Call>, replies: seq<Reply>, id: u32): seq<byte>
    requires |replies| <= |calls|
    decreases |replies|
  {
    if replies == [] then [] else
      var last := |replies| - 1;
      Collected(calls, replies[..last], id) + Arrived(calls[last], replies[last], id)
  }

  function Arrived(call: Call, reply: Reply, id: u32): seq<byte> {
    if call.ReadCall? && call.id == id && (reply.Data? || reply.Partial?) then reply.bytes else []
  }

  /** The slot is open on this file, at this position. */
  predicate Stands(slot: Slot, file: seq<byte>, pos: nat) {
    !slot.Closed? && slot.file == file && slot.pos == pos && pos <= |file|
  }

  lemma LowestClosed(slots: Slots)
    ensures Lowest(slots, 0) < 16 ==> slots[Lowest(slots, 0)].Closed?
  {
    LowestIs(slots, 0);
  }

  lemma {:induction false} LowestIs(slots: seq<Slot>, i: nat)
    requires i <= |slots|
    ensures var k := Lowest(slots, i);
            i <= k <= |slots| && (forall j :: i <= j < k ==> !slots[j].Closed?) && (k < |slots| ==> slots[k].Closed?)
    decreases |slots| - i
  {
    if i < |slots| && !slots[i].Closed? {
      LowestIs(slots, i + 1);
    }
  }

  /** One call moves an open slot on by the bytes it hands over, and not at all if it is on another handle. */
  lemma StepMoves(m: Medium, s: Slots, call: Call, reply: Reply, s': Slots, id: u32, file: seq<byte>, pos: nat)
    requires Steps(m, s, call, reply, s') && !OnStuck(s, call) && id < 16 && Stands(s[id], file, pos)
    requires call != CloseCall(id)
    ensures var b := Arrived(call, reply, id);
            pos + |b| <= |file| && b == file[pos..pos + |b|] && Stands(s'[id], file, pos + |b|)
  {
    LowestClosed(s);
  }

  /** The handle is not closed by the first n calls. */
  predicate KeptOpen(calls: seq<Call>, n: nat, id: u32)
    requires n <= |calls|
  {
    forall i :: 0 <= i < n ==> calls[i] != CloseCall(id)
  }

  /** The last call of a trace moves the slot on, and what it hands over is collected last. */
  lemma LastMoves(m: Medium, calls: seq<Call>, replies: seq<Reply>, states: seq<Slots>, id: u32, file: seq<byte>,
                  pos: nat, mid: nat) returns (end: nat)
    requires Trace(m, calls, replies, states) && replies != [] && KeptOpen(calls, |replies|, id) && id < 16
    requires pos <= mid <= |file| && Stands(states[|replies| - 1][id], file, mid)
    requires Collected(calls, replies[..|replies| - 1], id) == file[pos..mid]
    ensures mid <= end <= |file| && Stands(states[|replies|][id], file, end)
    ensures Collected(calls, replies, id) == file[pos..end]
  {
    var last := |replies| - 1;
    assert Steps(m, states[last], calls[last], replies[last], states[last + 1]);
    StepMoves(m, states[last], calls[last], replies[last], states[last + 1], id, file, mid);
    end := mid + |Arrived(calls[last], replies[last], id)|;
    assert file[pos..mid] + file[mid..end] == file[pos..end];
  }

  /** Whatever happens on other handles and whichever reads fail: what has been handed over on a handle from
      some moment on, while it stays open, is exactly the file between its position then and now. So a retry
      after a failed read goes on at the right byte. */
  lemma {:induction false} HandedOverInOrder(m: Medium, calls: seq<Call>, replies: seq<Reply>, states: seq<Slots>,
                                             id: u32, file: seq<byte>, pos: nat) returns (end: nat)
    requires Trace(m, calls, replies, states) && id < 16 && Stands(states[0][id], file, pos)
    requires KeptOpen(calls, |replies|, id)
    ensures pos <= end <= |file| && Stands(states[|replies|][id], file, end)
    ensures Collected(calls, replies, id) == file[pos..end]
    decreases |replies|
  {
    if replies == [] {
      end := pos;
    } else {
      var last := |replies| - 1;
      TraceBefore(m, calls, replies, states);
      var mid := HandedOverInOrder(m, calls, replies[..last], states[..last + 1], id, file, pos);
      end := LastMoves(m, calls, replies, states, id, file, pos, mid);
    }
  }

  lemma TraceBefore(m: Medium, calls: seq<Call>, replies: seq<Reply>, states: seq<Slots>)
    requires Trace(m, calls, replies, states) && replies != []
    ensures Trace(m, calls, replies[..|replies| - 1], states[..|states| - 1])
  {
  }

  /** Where no read fails the machine is a function, and no slot is ever stuck. */
  function Replies(files: Files, slots: Slots, calls: seq<Call>): seq<Reply>
    decreases |calls|
  {
    if calls == [] then [] else
      var (next, reply) := Step(files, slots, calls[0]);
      [reply] + Replies(files, next, calls[1..])
  }

  lemma {:induction false} ReliableTrace(m: Medium, calls: seq<Call>, replies: seq<Reply>, states: seq<Slots>, i: nat)
    requires m.reliable && Trace(m, calls, replies, states) && i <= |replies| == |calls|
    ensures replies[i..] == Replies(m.files, states[i], calls[i..])
    decreases |calls| - i
  {
    if i < |calls| {
      assert Steps(m, states[i], calls[i], replies[i], states[i + 1]);
      ReliableTrace(m, calls, replies, states, i + 1);
      assert calls[i..][1..] == calls[i + 1..] && replies[i..] == [replies[i]] + replies[i + 1..];
    }
  }

  // ----- what the machine abstracts -----

  ghost predicate Small(d: Driver)
    reads d, d.handles
    requires d.handles.Length == MAX_OPEN_FILES
  {
    forall i :: 0 <= i < MAX_OPEN_FILES && !d.handles[i].isFree ==> d.handles[i].size < TWO31
  }

  ghost predicate Good(d: Driver)
    reads d, d.handles
  {
    d.Valid() && Small(d)
  }

  ghost function MediumOf(d: Driver, files: Files): Medium
    reads d
  {
    Medium(files, d.card.reliable, d.vol.bytesPerCluster)
  }

  ghost function SlotOf(card: Card, v: Volume, ch: seq<nat>, h: Handle): Slot {
    if h.isFree || !FileOk(card, v, ch, h) then Closed
    else if h.offset == v.bytesPerCluster && h.pos < h.size then Stuck(Contents(card, v, ch, h.size), h.pos)
    else At(Contents(card, v, ch, h.size), h.pos)
  }

  ghost function SlotsOf(card: Card, v: Volume, chains: seq<seq<nat>>, hs: seq<Handle>): (slots: Slots)
    requires |hs| == |chains| == 16
  {
    seq(16, i requires 0 <= i < 16 => SlotOf(card, v, chains[i], hs[i]))
  }

  ghost function View(d: Driver): Slots
    reads d, d.handles
    requires d.handles.Length == MAX_OPEN_FILES == |d.chains|
  {
    SlotsOf(d.card, d.vol, d.chains, d.handles[..])
  }

  /** A change in one slot of the table shows in that slot of the view alone. */
  lemma SlotChanges(card: Card, v: Volume, cs: seq<seq<nat>>, cs': seq<seq<nat>>,
                    hs: seq<Handle>, hs': seq<Handle>, id: nat)
    requires |hs| == |cs| == |hs'| == |cs'| == 16
    requires forall i :: 0 <= i < |hs| && i != id ==> hs'[i] == hs[i] && cs'[i] == cs[i]
    ensures SlotsOf(card, v, cs', hs')
            == if id < |hs| then SlotsOf(card, v, cs, hs)[id := SlotOf(card, v, cs'[id], hs'[id])]
               else SlotsOf(card, v, cs, hs)
  {
  }

  /** The path names what the file system says, and files are below 2^31 bytes. */
  ghost predicate Known(card: Card, v: Volume, files: Files, path: seq<byte>) {
    && Openable(card, v, path)
    && match Target(card, v, path)
       case Found(info) => info.size < TWO31 && path in files && files[path] == StoredBytes(card, v, info)
       case Failed(_) => path !in files
  }

  ghost predicate Allowed(card: Card, v: Volume, files: Files, call: Call) {
    match call
    case OpenCall(path, _) => Known(card, v, files, path)
    case ReadCall(_, n) => n < TWO31
    case CloseCall(_) => true
  }

  /** Which slots are closed, and which are stuck. */
  lemma ViewAt(d: Driver, i: nat)
    requires d.Valid() && i < MAX_OPEN_FILES
    ensures View(d)[i].Closed? <==> d.handles[i].isFree
    ensures !d.handles[i].isFree ==>
              && FileOk(d.card, d.vol, d.chains[i], d.handles[i])
              && Stands(View(d)[i], d.FileBytes(i), d.handles[i].pos)
              && (View(d)[i].At? <==> d.Readable(i))
  {
    assert d.SlotOk(i);
    if !d.handles[i].isFree && d.handles[i].pos < d.handles[i].size && d.handles[i].offset == d.vol.bytesPerCluster {
      d.NotAtEndInside(d.card, d.vol, d.chains[i], d.handles[i]);
    }
  }

  lemma AllClosed(d: Driver)
    requires d.Valid()
    ensures forall i :: 0 <= i < MAX_OPEN_FILES ==> (View(d)[i].Closed? <==> d.handles[i].isFree)
  {
    forall i | 0 <= i < MAX_OPEN_FILES ensures View(d)[i].Closed? <==> d.handles[i].isFree {
      ViewAt(d, i);
    }
  }

  // ----- each call is a step -----

  method CallOpen(d: Driver, path: seq<byte>, mode: u8, ghost files: Files) returns (reply: Reply)
    requires Good(d) && Known(d.card, d.vol, files, path)
    modifies d`chains, d.handles
    ensures Good(d)
    ensures Steps(MediumOf(d, files), old(View(d)), OpenCall(path, mode), reply, View(d))
  {
    AllClosed(d);
    LowestIs(View(d), 0);
    ghost var view := View(d);
    ghost var chains, handles := d.chains, d.handles[..];
    var id := OpenFile(d, path, mode);
    SlotChanges(d.card, d.vol, chains, d.chains, handles, d.handles[..], id);
    if id < MAX_OPEN_FILES {
      NewSlot(d, id, mode, Target(d.card, d.vol, path).info);
      assert Lowest(view, 0) == id;
      reply := Opened(id);
    } else {
      reply := Refused;
    }
  }

  lemma NewSlot(d: Driver, id: nat, mode: u8, info: FileInfo)
    requires d.Valid() && id < MAX_OPEN_FILES
    requires d.handles[id] == Handle(info.cluster, info.cluster, 0, info.size, 0, false, mode)
    ensures FileOk(d.card, d.vol, d.chains[id], d.handles[id]) && View(d)[id] == At(d.FileBytes(id), 0)
  {
    ViewAt(d, id);
    assert 0 < d.vol.bytesPerCluster;
  }

  /** A read into a buffer of its own. */
  method TakeBytes(d: Driver, id: u32, n: u32) returns (ok: bool, data: seq<byte>)
    requires Good(d) && n < TWO31 && (d.Open(id) ==> d.Readable(id))
    modifies d.handles
    ensures Good(d) && d.OthersKept(id)
    ensures !old(d.Open(id)) ==> !ok && data == [] && d.handles[..] == old(d.handles[..])
    ensures old(d.Open(id)) ==> old(FileOk(d.card, d.vol, d.chains[id], d.handles[id])) && d.Open(id)
    ensures old(d.Open(id)) ==>
              && FileOk(d.card, d.vol, d.chains[id], d.handles[id]) && d.FileBytes(id) == old(d.FileBytes(id))
              && Took(old(d.handles[id]), d.handles[id], d.FileBytes(id), n, ok, data)
              && (ok ==> d.Readable(id)) && (!ok ==> !d.card.reliable)
  {
    var buffer := new byte[n];
    if id < MAX_OPEN_FILES {
      ViewAt(d, id);
    }
    var h := if id < MAX_OPEN_FILES then d.handles[id] else Handle(0, 0, 0, 0, 0, true, 0);
    ghost var lookup;
    ok, lookup := d.Read(id, buffer, 0, n);
    data := [];
    if id < MAX_OPEN_FILES && !h.isFree {
      ReadBytes(h, d.handles[id], buffer[..], d.FileBytes(id));
      data := buffer[..d.handles[id].pos - h.pos];
    }
  }

  /** The data is the file between the two positions; on success that is all that was asked for, or left. */
  ghost predicate Took(h: Handle, h': Handle, file: seq<byte>, n: u32, ok: bool, data: seq<byte>) {
    && h.pos <= h'.pos <= |file| == h.size == h'.size && h'.pos - h.pos <= Min(n, |file| - h.pos)
    && data == file[h.pos..h'.pos] && (ok ==> h'.pos - h.pos == Min(n, |file| - h.pos))
  }

  lemma ReadBytes(h: Handle, h': Handle, m: seq<byte>, file: seq<byte>)
    requires exists m0 :: HandedOver(h, h', m0, m, 0, file)
    ensures h.pos <= h'.pos <= |file| && h'.pos - h.pos <= |m| && m[..h'.pos - h.pos] == file[h.pos..h'.pos]
  {
  }

  method CallRead(d: Driver, id: u32, n: u32, ghost files: Files) returns (reply: Reply)
    requires Good(d) && n < TWO31 && !OnStuck(View(d), ReadCall(id, n))
    modifies d.handles
    ensures Good(d)
    ensures Steps(MediumOf(d, files), old(View(d)), ReadCall(id, n), reply, View(d))
  {
    if id < MAX_OPEN_FILES {
      ViewAt(d, id);
    }
    ghost var chains, handles := d.chains, d.handles[..];
    var open := id < MAX_OPEN_FILES && !d.handles[id].isFree;
    var ok, data := TakeBytes(d, id, n);
    SlotChanges(d.card, d.vol, chains, d.chains, handles, d.handles[..], id);
    if open {
      ViewAt(d, id);
      if !ok {
        StuckAtBoundary(d, id);
      }
      reply := if ok then Data(data) else Partial(data);
    } else {
      reply := Refused;
    }
  }

  /** A stuck slot stands where a cluster ends. */
  lemma StuckAtBoundary(d: Driver, id: nat)
    requires d.Valid() && id < MAX_OPEN_FILES && d.Open(id)
    ensures View(d)[id].Stuck? ==> && AtBoundary(d.vol.bytesPerCluster, d.handles[id].pos)
                                   && d.handles[id].pos < d.handles[id].size
  {
    ViewAt(d, id);
    if View(d)[id].Stuck? {
      assert d.SlotOk(id);
      var j: nat :| StrandedAt(d.vol, d.chains[id], d.handles[id], j);
      assert d.handles[id].pos == Rows(j + 1, d.vol.bytesPerCluster);
    }
  }

  method CallClose(d: Driver, id: u32, ghost files: Files) returns (reply: Reply)
    requires Good(d)
    modifies d.handles
    ensures Good(d)
    ensures (View(d), reply) == Step(files, old(View(d)), CloseCall(id))
  {
    ghost var chains, handles := d.chains, d.handles[..];
    var ok := d.Close(id);
    SlotChanges(d.card, d.vol, chains, d.chains, handles, d.handles[..], id);
    reply := if ok then Done else Refused;
  }

  method CallAny(d: Driver, call: Call, ghost files: Files) returns (reply: Reply)
    requires Good(d) && Allowed(d.card, d.vol, files, call) && !OnStuck(View(d), call)
    modifies d`chains, d.handles
    ensures Good(d)
    ensures Steps(MediumOf(d, files), old(View(d)), call, reply, View(d))
  {
    match call {
      case OpenCall(path, mode) => reply := CallOpen(d, path, mode, files);
      case ReadCall(id, n) => reply := CallRead(d, id, n, files);
      case CloseCall(id) => reply := CallClose(d, id, files);
    }
  }

  // ----- runs -----

  /** Whether a call is a read on a stuck slot. */
  method IsOnStuck(d: Driver, call: Call) returns (stuck: bool)
    requires Good(d)
    ensures stuck <==> OnStuck(View(d), call)
  {
    stuck := false;
    if call.ReadCall? && call.id < MAX_OPEN_FILES && !d.handles[call.id].isFree {
      ViewAt(d, call.id);
      assert d.SlotOk(call.id);
      var good := d.CursorGood(call.id);
      stuck := !good;
    } else if call.ReadCall? && call.id < MAX_OPEN_FILES {
      ViewAt(d, call.id);
    }
  }

  /** Any sequence of calls, on whichever handles and any card, is a run of the machine, up to a first read
      on a stuck slot if there is one. On a reliable card there is none, and the replies are the machine's
      (ReliableTrace); on any card, what arrives on a handle is its file, in order (HandedOverInOrder). */
  method Session(d: Driver, calls: seq<Call>, ghost files: Files)
    returns (replies: seq<Reply>, ghost states: seq<Slots>)
    requires Good(d) && forall i :: 0 <= i < |calls| ==> Allowed(d.card, d.vol, files, calls[i])
    modifies d`chains, d.handles
    ensures Good(d) && |replies| <= |calls|
    ensures Trace(MediumOf(d, files), calls, replies, states)
    ensures states[0] == old(View(d)) && states[|replies|] == View(d)
    ensures |replies| < |calls| ==> OnStuck(View(d), calls[|replies|])
  {
    replies := [];
    states := [View(d)];
    ghost var m := MediumOf(d, files);
    var i := 0;
    while i < |calls|
      invariant 0 <= i <= |calls| && |replies| == i && Good(d)
      invariant Trace(m, calls, replies, states) && states[0] == old(View(d)) && states[i] == View(d)
    {
      var stuck := IsOnStuck(d, calls[i]);
      if stuck {
        return;
      }
      ghost var view := View(d);
      assert Allowed(d.card, d.vol, files, calls[i]);
      var reply := CallAny(d, calls[i], files);
      TraceLonger(m, calls, replies, states, reply, View(d));
      replies, states := replies + [reply], states + [View(d)];
      i := i + 1;
    }
  }

  lemma TraceLonger(m: Medium, calls: seq<Call>, replies: seq<Reply>, states: seq<Slots>, reply: Reply, next: Slots)
    requires Trace(m, calls, replies, states) && |replies| < |calls|
    requires Steps(m, states[|replies|], calls[|replies|], reply, next) && !OnStuck(states[|replies|], calls[|replies|])
    ensures Trace(m, calls, replies + [reply], states + [next])
  {
    var rs, ss := replies + [reply], states + [next];
    forall i | 0 <= i < |rs| ensures Steps(m, ss[i], calls[i], rs[i], ss[i + 1]) && !OnStuck(ss[i], calls[i]) {
      if i < |replies| {
        assert Steps(m, states[i], calls[i], replies[i], states[i + 1]);
      }
    }
  }
}
