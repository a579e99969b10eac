/**
 * The miner's cached block work. The worker patches a 112-byte buffer in place; the node
 * later rebuilds the same bytes from its header. Hash functions are parameters.
 */
module Miner {
  import opened Base
  import opened Codec
  import opened BlockHeader

  const BLOCK_WORK_SIZE: nat := 112

  type HashFunction = seq<Byte> -> Hash

  datatype Algorithm = V1 | V2

  datatype MinerWork = MinerWork(
    headerWorkHash: Hash, timestamp: U64, nonce: U64, miner: Option<Hash>, extraNonce: Hash)

  datatype WorkerError = Uninitialized | MissingWork | HashError

  // ------------------------------------------------------ the header's side

  /** The part of a header that mining does not change. */
  function HeaderWork(hash: HashFunction, h: Header): seq<Byte> {
    [h.start.version] + (ToBE(h.start.height, 8) + (hash(Hashes(h.tips)) + hash(Hashes(h.txs))))
  }

  function WorkHash(hash: HashFunction, h: Header): Hash {
    hash(HeaderWork(hash, h))
  }

  function SerializedHeader(hash: HashFunction, h: Header): seq<Byte> {
    WorkHash(hash, h)
    + (ToBE(h.start.timestamp, 8) + (ToBE(h.start.nonce, 8) + (h.start.extraNonce + h.miner)))
  }

  function BlockHash(hash: HashFunction, h: Header): Hash {
    hash(SerializedHeader(hash, h))
  }

  /** The header with a miner's work put in; without a miner the program panics. */
  function ApplyMinerWork(h: Header, w: MinerWork): Option<Header> {
    match w.miner
    case None => None
    case Some(key) =>
      Some(h.(start := h.start.(timestamp := w.timestamp, nonce := w.nonce, extraNonce := w.extraNonce), miner := key))
  }

  function FromBlock(hash: HashFunction, h: Header): MinerWork {
    MinerWork(WorkHash(hash, h), h.start.timestamp, 0, Some(h.miner), h.start.extraNonce)
  }

  // ------------------------------------------------------- the work's side

  function NoKey(): (z: Hash) {
    seq(HASH_SIZE, _ => 0)
  }

  /** The key that is written: zeros stand for no miner. */
  function Key(w: MinerWork): Hash {
    if w.miner.Some? then w.miner.value else NoKey()
  }

  function Tail(w: MinerWork): (b: seq<Byte>)
    ensures |b| == 64
  {
    w.extraNonce + Key(w)
  }

  function WriteWork(w: MinerWork): (b: seq<Byte>)
    ensures |b| == BLOCK_WORK_SIZE
  {
    w.headerWorkHash + (ToBE(w.timestamp, 8) + (ToBE(w.nonce, 8) + Tail(w)))
  }

  /** Only a reader over exactly 112 bytes is accepted. */
  function ReadWork(bs: seq<Byte>): (r: Parsed<MinerWork>)
    ensures r.Read? <==> |bs| == BLOCK_WORK_SIZE
  {
    if |bs| != BLOCK_WORK_SIZE then Fail(InvalidSize)
    else
      var timestamp := TakeU64(bs, 32).value;
      var nonce := TakeU64(bs, 40).value;
      Read(MinerWork(bs[..32], timestamp, nonce, Some(bs[80..]), bs[48..80]), BLOCK_WORK_SIZE)
  }

  // ------------------------------------------------------------- mining runs

  datatype Step = IncreaseNonce | SetTimestamp(t: U64)

  function Mine(w: MinerWork, step: Step): MinerWork {
    match step
    case IncreaseNonce => w.(nonce := (w.nonce + 1) % TWO_64)
    case SetTimestamp(t) => w.(timestamp := t)
  }

  function MineAll(w: MinerWork, steps: seq<Step>): MinerWork
    decreases |steps|
  {
    if steps == [] then w else MineAll(Mine(w, steps[0]), steps[1..])
  }

  /** `b` written over `s` from position `at` on. */
  function Patch(s: seq<Byte>, at: nat, b: seq<Byte>): (r: seq<Byte>)
    requires at + |b| <= |s|
    ensures |r| == |s|
  {
    s[..at] + b + s[at + |b|..]
  }

  /** What a step does to the buffer. */
  function PatchStep(buffer: seq<Byte>, w: MinerWork, step: Step): (r: seq<Byte>)
    requires |buffer| == BLOCK_WORK_SIZE
    ensures |r| == BLOCK_WORK_SIZE
  {
    match step
    case IncreaseNonce => Patch(buffer, 40, ToBE(w.nonce, 8))
    case SetTimestamp(_) => Patch(buffer, 32, ToBE(w.timestamp, 8))
  }

  function PatchAll(buffer: seq<Byte>, w: MinerWork, steps: seq<Step>): (r: seq<Byte>)
    requires |buffer| == BLOCK_WORK_SIZE
    decreases |steps|
  {
    if steps == [] then buffer
    else var next := Mine(w, steps[0]); PatchAll(PatchStep(buffer, next, steps[0]), next, steps[1..])
  }

  lemma PatchMiddle(x: seq<Byte>, y: seq<Byte>, z: seq<Byte>, b: seq<Byte>)
    requires |b| == |y|
    ensures Patch(x + (y + z), |x|, b) == x + (b + z)
  {
    var s := x + (y + z);
    assert s[..|x|] == x;
    assert s[|x| + |b|..] == z;
    Associate(x, b, z);
  }

  /** Patching eight bytes is writing the stepped work anew. */
  lemma PatchIsRewrite(w: MinerWork, step: Step)
    ensures PatchStep(WriteWork(w), Mine(w, step), step) == WriteWork(Mine(w, step))
  {
    var v := Mine(w, step);
    var front := w.headerWorkHash;
    match step
    case SetTimestamp(_) =>
      PatchMiddle(front, ToBE(w.timestamp, 8), ToBE(w.nonce, 8) + Tail(w), ToBE(v.timestamp, 8));
    case IncreaseNonce =>
      Associate(front, ToBE(w.timestamp, 8), ToBE(w.nonce, 8) + Tail(w));
      PatchMiddle(front + ToBE(w.timestamp, 8), ToBE(w.nonce, 8), Tail(w), ToBE(v.nonce, 8));
      Associate(front, ToBE(w.timestamp, 8), ToBE(v.nonce, 8) + Tail(w));
  }

  /** After any run the patched buffer is the serialization of the stepped work. */
  lemma {:induction false} BufferIsCoherent(w: MinerWork, steps: seq<Step>)
    ensures PatchAll(WriteWork(w), w, steps) == WriteWork(MineAll(w, steps))
    decreases |steps|
  {
    if steps != [] {
      PatchIsRewrite(w, steps[0]);
      BufferIsCoherent(Mine(w, steps[0]), steps[1..]);
    }
  }

  function Increments(steps: seq<Step>): nat
  {
    if steps == [] then 0
    else (if steps[|steps| - 1].IncreaseNonce? then 1 else 0) + Increments(steps[..|steps| - 1])
  }

  /** The timestamp set last, or the one the job came with. */
  function LastTimestamp(t: U64, steps: seq<Step>): U64 {
    if steps == [] then t
    else match steps[|steps| - 1]
      case SetTimestamp(u) => u
      case IncreaseNonce => LastTimestamp(t, steps[..|steps| - 1])
  }

  lemma {:induction false} MineLast(w: MinerWork, steps: seq<Step>)
    requires steps != []
    ensures MineAll(w, steps) == Mine(MineAll(w, steps[..|steps| - 1]), steps[|steps| - 1])
    decreases |steps|
  {
    if |steps| > 1 {
      MineLast(Mine(w, steps[0]), steps[1..]);
      assert steps[1..][..|steps| - 2] == steps[..|steps| - 1][1..];
    }
  }

  /** A run keeps the identity of the job and shows the latest timestamp. */
  lemma {:induction false} RunKeepsJob(w: MinerWork, steps: seq<Step>)
    ensures var v := MineAll(w, steps);
            v.headerWorkHash == w.headerWorkHash && v.miner == w.miner && v.extraNonce == w.extraNonce
            && v.timestamp == LastTimestamp(w.timestamp, steps)
    decreases |steps|
  {
    if steps != [] {
      MineLast(w, steps);
      RunKeepsJob(w, steps[..|steps| - 1]);
    }
  }

  /** The nonce is counted up modulo 2^64. */
  lemma {:induction false} NonceCounts(w: MinerWork, steps: seq<Step>)
    ensures MineAll(w, steps).nonce == (w.nonce + Increments(steps)) % TWO_64
    decreases |steps|
  {
    if steps != [] {
      var front := steps[..|steps| - 1];
      MineLast(w, steps);
      NonceCounts(w, front);
      CountOn(w.nonce + Increments(front));
    }
  }

  lemma CountOn(n: nat)
    ensures (n % TWO_64 + 1) % TWO_64 == (n + 1) % TWO_64
  {}

  // --------------------------------------------------- both sides agree

  /** Mining does not touch what the work hash covers. */
  lemma WorkHashIsKept(hash: HashFunction, h: Header, w: MinerWork)
    requires w.miner.Some?
    ensures WorkHash(hash, ApplyMinerWork(h, w).value) == WorkHash(hash, h)
  {}

  /** A work fits a header, byte for byte, exactly when it carries the header's work hash. */
  lemma FitsExactly(hash: HashFunction, h: Header, w: MinerWork)
    requires w.miner.Some?
    ensures SerializedHeader(hash, ApplyMinerWork(h, w).value) == WriteWork(w)
            <==> w.headerWorkHash == WorkHash(hash, h)
  {
    var g := ApplyMinerWork(h, w).value;
    WorkHashIsKept(hash, h, w);
    var s, b := SerializedHeader(hash, g), WriteWork(w);
    assert s[..32] == WorkHash(hash, h) && b[..32] == w.headerWorkHash;
    assert s[32..] == b[32..];
    assert s == s[..32] + s[32..] && b == b[..32] + b[32..];
  }

  /**
   * Whatever the run, the header the node rebuilds from the taken work serializes to the
   * worker's buffer, so that block hash and proof-of-work input agree.
   */
  lemma MinedHeaderIsTheBuffer(hash: HashFunction, h: Header, w: MinerWork, steps: seq<Step>)
    requires w.headerWorkHash == WorkHash(hash, h) && w.miner.Some?
    ensures var buffer := PatchAll(WriteWork(w), w, steps);
            var mined := ApplyMinerWork(h, MineAll(w, steps));
            mined.Some? && SerializedHeader(hash, mined.value) == buffer
            && BlockHash(hash, mined.value) == hash(buffer)
            && WorkHash(hash, mined.value) == WorkHash(hash, h)
  {
    BufferIsCoherent(w, steps);
    RunKeepsJob(w, steps);
    FitsExactly(hash, h, MineAll(w, steps));
    WorkHashIsKept(hash, h, MineAll(w, steps));
  }

  /** The work made from a header belongs to it: applied at once it only resets the nonce. */
  lemma TemplateRoundTrip(hash: HashFunction, h: Header)
    ensures var w := FromBlock(hash, h);
            w.headerWorkHash == WorkHash(hash, h) && w.miner.Some?
            && ApplyMinerWork(h, w) == Some(h.(start := h.start.(nonce := 0)))
            && SerializedHeader(hash, h.(start := h.start.(nonce := 0))) == WriteWork(w)
  {
    FitsExactly(hash, h, FromBlock(hash, h));
  }

  /** The node's reader returns the work that was sent, zeros standing for a missing miner. */
  lemma WorkRoundTrip(w: MinerWork)
    ensures ReadWork(WriteWork(w)) == Read(w.(miner := Some(Key(w))), BLOCK_WORK_SIZE)
  {
    var b := WriteWork(w);
    var c, d := ToBE(w.timestamp, 8), ToBE(w.nonce, 8);
    IntWidths();
    assert b[..32] == w.headerWorkHash;
    assert b[32..40] == c;
    assert b[40..48] == d;
    AtInt(b, 32, w.timestamp, 8);
    AtInt(b, 40, w.nonce, 8);
    assert b[48..80] == w.extraNonce;
    assert b[80..] == Key(w);
  }

  /** Every 112 bytes are the form of exactly the work they are read as. */
  lemma WorkIsCanonical(bs: seq<Byte>)
    requires |bs| == BLOCK_WORK_SIZE
    ensures WriteWork(ReadWork(bs).value) == bs
  {
    var w := ReadWork(bs).value;
    IntAt(bs, 32, 8);
    IntAt(bs, 40, 8);
    assert bs == bs[..32] + (bs[32..40] + (bs[40..48] + (bs[48..80] + bs[80..])));
  }

  lemma NoncesDiffer(n: U64, a: nat, b: nat)
    requires a < b < TWO_64
    ensures (n + a) % TWO_64 != (n + b) % TWO_64
  {}

  lemma DifferentNonceDifferentBytes(v: MinerWork, w: MinerWork)
    requires v.nonce != w.nonce
    ensures WriteWork(v) != WriteWork(w)
  {
    WorkRoundTrip(v);
    WorkRoundTrip(w);
  }

  /** As long as the nonce has not come full circle, no two points of a job hash the same bytes. */
  lemma NoWorkTwice(w: MinerWork, before: seq<Step>, after: seq<Step>)
    requires Increments(before) < Increments(after) < TWO_64
    ensures PatchAll(WriteWork(w), w, before) != PatchAll(WriteWork(w), w, after)
  {
    BufferIsCoherent(w, before);
    BufferIsCoherent(w, after);
    NonceCounts(w, before);
    NonceCounts(w, after);
    NoncesDiffer(w.nonce, Increments(before), Increments(after));
    DifferentNonceDifferentBytes(MineAll(w, before), MineAll(w, after));
  }

  /** From the daemon's template to the block it accepts: mined, sent as bytes, read and applied. */
  lemma SubmittedWorkIsAccepted(hash: HashFunction, h: Header, w: MinerWork, steps: seq<Step>)
    requires w.headerWorkHash == WorkHash(hash, h) && w.miner.Some?
    ensures var buffer := PatchAll(WriteWork(w), w, steps);
            var received := ReadWork(buffer);
            received.Read? && received.value == MineAll(w, steps)
            && ApplyMinerWork(h, received.value).Some?
            && SerializedHeader(hash, ApplyMinerWork(h, received.value).value) == buffer
  {
    BufferIsCoherent(w, steps);
    RunKeepsJob(w, steps);
    WorkRoundTrip(MineAll(w, steps));
    MinedHeaderIsTheBuffer(hash, h, w, steps);
  }

  // -------------------------------------------------- what the hashes cover

  /** Where each field stands in the 112 bytes. */
  lemma WorkLayout(w: MinerWork)
    ensures var b := WriteWork(w);
            At(b, 0, w.headerWorkHash) && At(b, 32, ToBE(w.timestamp, 8)) && At(b, 40, ToBE(w.nonce, 8))
            && At(b, 48, w.extraNonce) && At(b, 80, Key(w))
  {
    var b := WriteWork(w);
    assert b[0..|b|] == b;
    Between(b, 0, w.headerWorkHash, ToBE(w.timestamp, 8) + (ToBE(w.nonce, 8) + Tail(w)));
    Between(b, 32, ToBE(w.timestamp, 8), ToBE(w.nonce, 8) + Tail(w));
    Between(b, 40, ToBE(w.nonce, 8), Tail(w));
    Between(b, 48, w.extraNonce, Key(w));
  }

  /** Two different inputs with the same hash. */
  ghost predicate Collide(hash: HashFunction, x: seq<Byte>, y: seq<Byte>) {
    x != y && hash(x) == hash(y)
  }

  /** The parts of two headers that mining does not change. */
  predicate SameTemplate(g: Header, h: Header) {
    g.start.version == h.start.version && g.start.height == h.start.height && g.tips == h.tips && g.txs == h.txs
  }

  lemma SameParts(a: seq<Byte>, x: seq<Byte>, b: seq<Byte>, y: seq<Byte>)
    requires a + x == b + y && |a| == |b|
    ensures a == b && x == y
  {
    assert (a + x)[..|a|] == a && (b + y)[..|a|] == b;
    assert (a + x)[|a|..] == x && (b + y)[|a|..] == y;
  }

  lemma SameInt(m: U64, n: U64)
    requires ToBE(m, 8) == ToBE(n, 8)
    ensures m == n
  {
    IntWidths();
    FromToBE(m, 8);
    FromToBE(n, 8);
  }

  lemma SameWork(hash: HashFunction, g: Header, h: Header)
    requires HeaderWork(hash, g) == HeaderWork(hash, h)
    ensures g.start.version == h.start.version && g.start.height == h.start.height
    ensures hash(Hashes(g.tips)) == hash(Hashes(h.tips)) && hash(Hashes(g.txs)) == hash(Hashes(h.txs))
  {
    var a: seq<Byte>, b: seq<Byte> := hash(Hashes(g.tips)), hash(Hashes(h.tips));
    var c: seq<Byte>, d: seq<Byte> := hash(Hashes(g.txs)), hash(Hashes(h.txs));
    SameParts([g.start.version], ToBE(g.start.height, 8) + (a + c), [h.start.version], ToBE(h.start.height, 8) + (b + d));
    SameParts(ToBE(g.start.height, 8), a + c, ToBE(h.start.height, 8), b + d);
    SameParts(a, c, b, d);
    SameInt(g.start.height, h.start.height);
    assert [g.start.version][0] == [h.start.version][0];
  }

  /** The work hash covers version, height, tips and transactions: two headers with the same one agree there, or a collision is found. */
  lemma WorkHashCovers(hash: HashFunction, g: Header, h: Header)
    returns (x: seq<Byte>, y: seq<Byte>)
    requires WorkHash(hash, g) == WorkHash(hash, h)
    ensures SameTemplate(g, h) || Collide(hash, x, y)
  {
    x, y := HeaderWork(hash, g), HeaderWork(hash, h);
    if x == y {
      SameWork(hash, g, h);
      if Hashes(g.tips) != Hashes(h.tips) {
        x, y := Hashes(g.tips), Hashes(h.tips);
      } else if Hashes(g.txs) != Hashes(h.txs) {
        x, y := Hashes(g.txs), Hashes(h.txs);
      } else {
        HashesInjective(g.tips, h.tips);
        HashesInjective(g.txs, h.txs);
      }
    }
  }

  lemma SameSerialized(hash: HashFunction, g: Header, h: Header)
    requires SerializedHeader(hash, g) == SerializedHeader(hash, h)
    ensures WorkHash(hash, g) == WorkHash(hash, h) && g.start.timestamp == h.start.timestamp
    ensures g.start.nonce == h.start.nonce && g.start.extraNonce == h.start.extraNonce && g.miner == h.miner
  {
    var a, b := g.start.extraNonce + g.miner, h.start.extraNonce + h.miner;
    var c, d := ToBE(g.start.nonce, 8) + a, ToBE(h.start.nonce, 8) + b;
    SameParts(WorkHash(hash, g), ToBE(g.start.timestamp, 8) + c, WorkHash(hash, h), ToBE(h.start.timestamp, 8) + d);
    SameParts(ToBE(g.start.timestamp, 8), c, ToBE(h.start.timestamp, 8), d);
    SameParts(ToBE(g.start.nonce, 8), a, ToBE(h.start.nonce, 8), b);
    SameParts(g.start.extraNonce, g.miner, h.start.extraNonce, h.miner);
    SameInt(g.start.timestamp, h.start.timestamp);
    SameInt(g.start.nonce, h.start.nonce);
  }

  /** The block hash covers the whole header: two headers with the same one are equal, or a collision is found. */
  lemma BlockHashCovers(hash: HashFunction, g: Header, h: Header)
    returns (x: seq<Byte>, y: seq<Byte>)
    requires BlockHash(hash, g) == BlockHash(hash, h)
    ensures g == h || Collide(hash, x, y)
  {
    x, y := SerializedHeader(hash, g), SerializedHeader(hash, h);
    if x == y {
      SameSerialized(hash, g, h);
      x, y := WorkHashCovers(hash, g, h);
    }
  }

  // ------------------------------------------------------------ the worker

  /** `copy_from_slice` into a part of the buffer. */
  method CopyInto(a: array<Byte>, at: nat, b: seq<Byte>)
    requires at + |b| <= a.Length
    modifies a
    ensures a[..] == Patch(old(a[..]), at, b)
  {
    for i := 0 to |b|
      invariant forall k :: 0 <= k < a.Length ==>
        a[k] == if at <= k < at + i then b[k - at] else old(a[k])
    {
      a[at + i] := b[i];
    }
    ghost var was := old(a[..]);
    assert forall k :: 0 <= k < a.Length ==> a[k] == Patch(was, at, b)[k];
  }

  class Worker {
    var work: Option<MinerWork>
    var input: array<Byte>
    var variant: Option<Algorithm>

    /** The buffer is the serialization of the work. */
    ghost predicate Valid()
      reads this, input
    {
      input.Length == BLOCK_WORK_SIZE
      && (work.Some? ==> input[..] == WriteWork(work.value) && variant.Some?)
    }

    constructor ()
      ensures Valid() && work == None && variant == None && fresh(input)
    {
      work := None;
      variant := None;
      input := new Byte[BLOCK_WORK_SIZE](_ => 0);
    }

    method SetWork(w: MinerWork, kind: Algorithm)
      requires Valid()
      modifies this
      ensures Valid() && work == Some(w) && variant == Some(kind) && fresh(input)
    {
      if variant != Some(kind) {
        variant := Some(kind);
      }
      var slice := new Byte[BLOCK_WORK_SIZE](_ => 0);
      var bytes := WriteWork(w);
      CopyInto(slice, 0, bytes);
      assert slice[..] == bytes;
      work := Some(w);
      input := slice;
    }

    method IncreaseNonce() returns (r: Result<(), WorkerError>)
      requires Valid()
      modifies this`work, input
      ensures Valid() && r == if old(work).Some? then Ok(()) else Err(MissingWork)
      ensures old(work).Some? ==>
                work == Some(Mine(old(work).value, Step.IncreaseNonce))
                && input[..] == PatchStep(old(input[..]), work.value, Step.IncreaseNonce)
      ensures old(work).None? ==> work.None? && input[..] == old(input[..])
    {
      if work.None? {
        return Err(MissingWork);
      }
      var w := work.value;
      var n: U64 := (w.nonce + 1) % TWO_64;
      work := Some(w.(nonce := n));
      PatchIsRewrite(w, Step.IncreaseNonce);
      CopyInto(input, 40, ToBE(n, 8));
      r := Ok(());
    }

    method SetTimestamp(t: U64) returns (r: Result<(), WorkerError>)
      requires Valid()
      modifies this`work, input
      ensures Valid() && r == if old(work).Some? then Ok(()) else Err(MissingWork)
      ensures old(work).Some? ==>
                work == Some(Mine(old(work).value, Step.SetTimestamp(t)))
                && input[..] == PatchStep(old(input[..]), work.value, Step.SetTimestamp(t))
      ensures old(work).None? ==> work.None? && input[..] == old(input[..])
    {
      if work.None? {
        return Err(MissingWork);
      }
      var w := work.value;
      work := Some(w.(timestamp := t));
      PatchIsRewrite(w, Step.SetTimestamp(t));
      CopyInto(input, 32, ToBE(t, 8));
      r := Ok(());
    }

    method TakeWork() returns (w: Option<MinerWork>)
      requires Valid()
      modifies this`work
      ensures Valid() && w == old(work) && work == None
    {
      w := work;
      work := None;
    }

    /** The block hash of any header the work belongs to, once the work is applied. */
    method GetBlockHash(hash: HashFunction) returns (r: Result<Hash, WorkerError>)
      requires Valid()
      ensures work.None? ==> r == Err(MissingWork)
      ensures work.Some? ==> r == Ok(hash(input[..]))
      ensures forall h :: work.Some? && work.value.miner.Some? && WorkHash(hash, h) == work.value.headerWorkHash ==>
                r == Ok(BlockHash(hash, ApplyMinerWork(h, work.value).value))
    {
      if work.None? {
        return Err(MissingWork);
      }
      r := Ok(hash(input[..]));
      forall h | work.value.miner.Some? && WorkHash(hash, h) == work.value.headerWorkHash
        ensures r == Ok(BlockHash(hash, ApplyMinerWork(h, work.value).value))
      {
        FitsExactly(hash, h, work.value);
      }
    }

    /** The proof-of-work hash is taken of the same bytes, with the algorithm of the last job. */
    method GetPowHash(pow: (Algorithm, seq<Byte>) -> Option<Hash>) returns (r: Result<Hash, WorkerError>)
      requires Valid()
      ensures work.None? ==> r == Err(MissingWork)
      ensures work.Some? ==>
                var p := pow(variant.value, WriteWork(work.value));
                r == if p.Some? then Ok(p.value) else Err(HashError)
    {
      if work.None? {
        return Err(MissingWork);
      }
      if variant.None? {
        return Err(Uninitialized);
      }
      var p := pow(variant.value, input[..]);
      r := if p.Some? then Ok(p.value) else Err(HashError);
    }
  }
}
