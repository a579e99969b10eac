/** The block header and its binary form. */
module BlockHeader {
  import opened Base
  import opened Codec

  const TIPS_LIMIT: nat := 3
  const HASH_SIZE: nat := 32

  /** A hash, an extra nonce or a compressed public key. */
  type Hash = s: seq<Byte> | |s| == HASH_SIZE witness seq(HASH_SIZE, _ => 0)

  type Version = n: int | 0 <= n <= 3

  /** What comes before the tips in the binary form. */
  datatype Start = Start(version: Version, height: U64, timestamp: U64, nonce: U64, extraNonce: Hash)

  /** The two index sets are kept in insertion order; see `Sets`. */
  datatype Header = Header(start: Start, tips: seq<Hash>, txs: seq<Hash>, miner: Hash)

  /** No element twice. */
  predicate Distinct(s: seq<Hash>) {
    s == [] || (s[|s| - 1] !in s[..|s| - 1] && Distinct(s[..|s| - 1]))
  }

  /** What the type `IndexSet` guarantees by itself. */
  predicate Sets(h: Header) {
    Distinct(h.tips) && Distinct(h.txs)
  }

  predicate WithinLimits(h: Header) {
    |h.tips| <= TIPS_LIMIT && |h.txs| <= 65535
  }

  /** The size a header announces for itself. */
  function Size(h: Header): nat {
    32 + (1 + |h.tips| * HASH_SIZE) + (2 + |h.txs| * HASH_SIZE) + 1 + 32 + 8 + 8 + 8
  }

  // ------------------------------------------------------------- writing

  function Hashes(s: seq<Hash>): (b: seq<Byte>)
    ensures |b| == HASH_SIZE * |s|
  {
    if s == [] then [] else Hashes(s[..|s| - 1]) + s[|s| - 1]
  }

  function StartBytes(s: Start): seq<Byte> {
    [s.version] + (ToBE(s.height, 8) + (ToBE(s.timestamp, 8) + (ToBE(s.nonce, 8) + s.extraNonce)))
  }

  function TipsBytes(tips: seq<Hash>): seq<Byte> {
    [AsU8(|tips|)] + Hashes(tips)
  }

  function TxsBytes(txs: seq<Hash>): seq<Byte> {
    ToBE(AsU16(|txs|), 2) + Hashes(txs)
  }

  function Write(h: Header): seq<Byte> {
    StartBytes(h.start) + (TipsBytes(h.tips) + (TxsBytes(h.txs) + h.miner))
  }

  // ------------------------------------------------------------- reading

  function TakeHash(bs: seq<Byte>, at: nat): (r: Parsed<Hash>)
    requires at <= |bs|
    ensures r.Read? ==> r.next == at + HASH_SIZE <= |bs|
  {
    if HASH_SIZE > |bs| - at then Fail(InvalidSize) else Read(bs[at..at + HASH_SIZE], at + HASH_SIZE)
  }

  function TakeVersion(bs: seq<Byte>, at: nat): (r: Parsed<Version>)
    requires at <= |bs|
    ensures r.Read? ==> r.next == at + 1 <= |bs|
  {
    match TakeU8(bs, at)
    case Fail(e) => Fail(e)
    case Read(b, next) => if b > 3 then Fail(InvalidValue) else Read(b, next)
  }

  function TakeU64(bs: seq<Byte>, at: nat): (r: Parsed<U64>)
    requires at <= |bs|
    ensures r.Read? ==> r.next == at + 8 <= |bs|
  {
    match TakeInt(bs, at, 8)
    case Fail(e) => Fail(e)
    case Read(n, next) => IntAt(bs, at, 8); IntWidths(); Read(n, next)
  }

  function ReadStart(bs: seq<Byte>, at: nat): (r: Parsed<Start>)
    requires at <= |bs|
    ensures r.Read? ==> r.next == at + 57 <= |bs|
  {
    match TakeVersion(bs, at)
    case Fail(e) => Fail(e)
    case Read(version, a) =>
    match TakeU64(bs, a)
    case Fail(e) => Fail(e)
    case Read(height, b) =>
    match TakeU64(bs, b)
    case Fail(e) => Fail(e)
    case Read(timestamp, c) =>
    match TakeU64(bs, c)
    case Fail(e) => Fail(e)
    case Read(nonce, d) =>
    match TakeHash(bs, d)
    case Fail(e) => Fail(e)
    case Read(extraNonce, next) => Read(Start(version, height, timestamp, nonce, extraNonce), next)
  }

  /** Adds `n` more hashes to an index set; a hash it already holds is refused. */
  function ReadSet(bs: seq<Byte>, at: nat, n: nat, seen: seq<Hash>): (r: Parsed<seq<Hash>>)
    requires at <= |bs|
    ensures r.Read? ==> r.next == at + HASH_SIZE * n <= |bs|
    decreases n
  {
    if n == 0 then Read(seen, at)
    else
      match TakeHash(bs, at)
      case Fail(e) => Fail(e)
      case Read(h, next) => if h in seen then Fail(InvalidValue) else ReadSet(bs, next, n - 1, seen + [h])
  }

  function ReadTips(bs: seq<Byte>, at: nat): (r: Parsed<seq<Hash>>)
    requires at <= |bs|
    ensures r.Read? ==> at <= r.next <= |bs|
  {
    match TakeU8(bs, at)
    case Fail(e) => Fail(e)
    case Read(n, next) => if n > TIPS_LIMIT then Fail(InvalidValue) else ReadSet(bs, next, n, [])
  }

  function ReadTxs(bs: seq<Byte>, at: nat): (r: Parsed<seq<Hash>>)
    requires at <= |bs|
    ensures r.Read? ==> at <= r.next <= |bs|
  {
    match TakeInt(bs, at, 2)
    case Fail(e) => Fail(e)
    case Read(n, next) => ReadSet(bs, next, n, [])
  }

  function ReadHeader(bs: seq<Byte>, at: nat): (r: Parsed<Header>)
    requires at <= |bs|
    ensures r.Read? ==> at <= r.next <= |bs|
  {
    match ReadStart(bs, at)
    case Fail(e) => Fail(e)
    case Read(start, a) =>
    match ReadTips(bs, a)
    case Fail(e) => Fail(e)
    case Read(tips, b) =>
    match ReadTxs(bs, b)
    case Fail(e) => Fail(e)
    case Read(txs, c) =>
    match TakeHash(bs, c)
    case Fail(e) => Fail(e)
    case Read(miner, next) => Read(Header(start, tips, txs, miner), next)
  }

  // ------------------------------- each part is read exactly where it stands

  lemma HashAt(bs: seq<Byte>, at: nat, h: Hash)
    requires at <= |bs|
    ensures TakeHash(bs, at) == Read(h, at + HASH_SIZE) <==> At(bs, at, h)
  {}

  lemma VersionAt(bs: seq<Byte>, at: nat, v: Version)
    requires at <= |bs|
    ensures TakeVersion(bs, at) == Read(v, at + 1) <==> At(bs, at, [v])
  {
    if at < |bs| {
      assert bs[at..at + 1] == [bs[at]];
      assert [bs[at]][0] == [v][0] <==> [bs[at]] == [v];
    }
  }

  lemma U64At(bs: seq<Byte>, at: nat, n: U64)
    requires at <= |bs|
    ensures TakeU64(bs, at) == Read(n, at + 8) <==> At(bs, at, ToBE(n, 8))
  {
    IntWidths();
    if At(bs, at, ToBE(n, 8)) {
      AtInt(bs, at, n, 8);
    }
    if TakeU64(bs, at) == Read(n, at + 8) {
      IntAt(bs, at, 8);
    }
  }

  lemma StartAt(bs: seq<Byte>, at: nat, s: Start)
    requires at <= |bs|
    ensures ReadStart(bs, at) == Read(s, at + 57) <==> At(bs, at, StartBytes(s))
  {
    AtSplit(bs, at, [s.version], ToBE(s.height, 8) + (ToBE(s.timestamp, 8) + (ToBE(s.nonce, 8) + s.extraNonce)));
    AtSplit(bs, at + 1, ToBE(s.height, 8), ToBE(s.timestamp, 8) + (ToBE(s.nonce, 8) + s.extraNonce));
    AtSplit(bs, at + 9, ToBE(s.timestamp, 8), ToBE(s.nonce, 8) + s.extraNonce);
    AtSplit(bs, at + 17, ToBE(s.nonce, 8), s.extraNonce);
    VersionAt(bs, at, s.version);
    if at + 25 <= |bs| {
      U64At(bs, at + 1, s.height);
      U64At(bs, at + 9, s.timestamp);
      U64At(bs, at + 17, s.nonce);
      HashAt(bs, at + 25, s.extraNonce);
    }
  }

  lemma {:induction false} DistinctPrefix(s: seq<Hash>, k: nat)
    requires k <= |s| && Distinct(s)
    ensures Distinct(s[..k])
    decreases |s|
  {
    if k < |s| {
      DistinctPrefix(s[..|s| - 1], k);
      assert s[..|s| - 1][..k] == s[..k];
    } else {
      assert s[..k] == s;
    }
  }

  lemma {:induction false} HashesAppend(s: seq<Hash>, h: Hash)
    ensures Hashes(s + [h]) == Hashes(s) + h
  {
    assert (s + [h])[..|s|] == s;
  }

  lemma {:induction false} HashesHead(s: seq<Hash>)
    requires s != []
    ensures Hashes(s) == s[0] + Hashes(s[1..])
    decreases |s|
  {
    if |s| > 1 {
      var k := |s| - 1;
      HashesHead(s[..k]);
      assert s[..k][1..] == s[1..][..k - 1];
      Associate(s[0], Hashes(s[1..][..k - 1]), s[k]);
    }
  }

  /** What is read is appended to what was there, stands in the bytes and repeats nothing. */
  lemma {:induction false} SetRead(bs: seq<Byte>, at: nat, n: nat, seen: seq<Hash>, v: seq<Hash>, next: nat)
    requires at <= |bs| && Distinct(seen) && ReadSet(bs, at, n, seen) == Read(v, next)
    ensures |v| == |seen| + n && v[..|seen|] == seen && Distinct(v)
    ensures At(bs, at, Hashes(v[|seen|..]))
    decreases n
  {
    if n == 0 {
      assert v[|seen|..] == [];
    } else {
      var h := TakeHash(bs, at).value;
      assert (seen + [h])[..|seen|] == seen;
      SetRead(bs, at + HASH_SIZE, n - 1, seen + [h], v, next);
      SetReadStep(bs, at, seen, h, v);
    }
  }

  lemma SetReadStep(bs: seq<Byte>, at: nat, seen: seq<Hash>, h: Hash, v: seq<Hash>)
    requires |v| > |seen| && v[..|seen| + 1] == seen + [h]
    requires At(bs, at, h) && At(bs, at + HASH_SIZE, Hashes(v[|seen| + 1..]))
    ensures v[..|seen|] == seen && At(bs, at, Hashes(v[|seen|..]))
  {
    var w := v[|seen|..];
    assert v[..|seen| + 1][|seen|] == h;
    assert w[0] == h && w[1..] == v[|seen| + 1..];
    assert v[..|seen|] == v[..|seen| + 1][..|seen|];
    HashesHead(w);
    AtSplit(bs, at, h, Hashes(w[1..]));
  }

  /** Hashes that stand in the bytes and repeat nothing are read. */
  lemma {:induction false} SetFound(bs: seq<Byte>, at: nat, n: nat, seen: seq<Hash>, more: seq<Hash>)
    requires at <= |bs| && |more| == n && Distinct(seen + more) && At(bs, at, Hashes(more))
    ensures ReadSet(bs, at, n, seen) == Read(seen + more, at + HASH_SIZE * n)
    decreases n
  {
    if n == 0 {
      assert seen + more == seen;
    } else {
      var first, rest := more[0], more[1..];
      HashesHead(more);
      AtSplit(bs, at, first, Hashes(rest));
      assert seen + more == (seen + [first]) + rest;
      FirstIsNew(seen, first, rest);
      SetFound(bs, at + HASH_SIZE, n - 1, seen + [first], rest);
    }
  }

  lemma FirstIsNew(seen: seq<Hash>, first: Hash, rest: seq<Hash>)
    requires Distinct(seen + [first] + rest)
    ensures first !in seen
  {
    var s := seen + [first];
    DistinctPrefix(s + rest, |s|);
    assert (s + rest)[..|s|] == s;
    assert s[..|seen|] == seen;
  }

  /** The same for a whole index set. */
  lemma SetAt(bs: seq<Byte>, at: nat, n: nat, s: seq<Hash>)
    requires at <= |bs|
    ensures ReadSet(bs, at, n, []) == Read(s, at + HASH_SIZE * n)
            <==> |s| == n && Distinct(s) && At(bs, at, Hashes(s))
  {
    assert [] + s == s && s[0..] == s;
    if |s| == n && Distinct(s) && At(bs, at, Hashes(s)) {
      SetFound(bs, at, n, [], s);
    }
    if ReadSet(bs, at, n, []) == Read(s, at + HASH_SIZE * n) {
      SetRead(bs, at, n, [], s, at + HASH_SIZE * n);
    }
  }

  lemma ByteAt(bs: seq<Byte>, at: nat)
    requires at < |bs|
    ensures At(bs, at, [bs[at]])
  {}

  lemma SameByte(bs: seq<Byte>, at: nat, b: Byte)
    requires at < |bs|
    ensures At(bs, at, [b]) <==> bs[at] == b
  {
    ByteAt(bs, at);
    if At(bs, at, [b]) {
      AtByte(bs, at, b);
    }
  }

  lemma TipsAt(bs: seq<Byte>, at: nat, tips: seq<Hash>)
    requires at <= |bs|
    ensures ReadTips(bs, at) == Read(tips, at + 1 + HASH_SIZE * |tips|)
            <==> |tips| <= TIPS_LIMIT && Distinct(tips) && At(bs, at, TipsBytes(tips))
  {
    AtSplit(bs, at, [AsU8(|tips|)], Hashes(tips));
    if at < |bs| {
      SameByte(bs, at, AsU8(|tips|));
      SetAt(bs, at + 1, bs[at], tips);
      SetLength(bs, at + 1, bs[at]);
    }
  }

  lemma SetLength(bs: seq<Byte>, at: nat, n: nat)
    requires at <= |bs|
    ensures var r := ReadSet(bs, at, n, []); r.Read? ==> |r.value| == n
  {
    var r := ReadSet(bs, at, n, []);
    if r.Read? {
      SetRead(bs, at, n, [], r.value, r.next);
    }
  }

  lemma TxsAt(bs: seq<Byte>, at: nat, txs: seq<Hash>)
    requires at <= |bs|
    ensures ReadTxs(bs, at) == Read(txs, at + 2 + HASH_SIZE * |txs|)
            <==> |txs| <= 65535 && Distinct(txs) && At(bs, at, TxsBytes(txs))
  {
    IntWidths();
    AtSplit(bs, at, ToBE(AsU16(|txs|), 2), Hashes(txs));
    if At(bs, at, ToBE(AsU16(|txs|), 2)) {
      AtInt(bs, at, AsU16(|txs|), 2);
    }
    match TakeInt(bs, at, 2)
    case Fail(_) =>
    case Read(n, next) =>
      IntAt(bs, at, 2);
      SetLength(bs, next, n);
      SetAt(bs, next, n, txs);
  }

  lemma TipsEnd(bs: seq<Byte>, at: nat)
    requires at <= |bs|
    ensures var r := ReadTips(bs, at); r.Read? ==> r.next == at + 1 + HASH_SIZE * |r.value|
  {
    if at < |bs| {
      SetLength(bs, at + 1, bs[at]);
    }
  }

  lemma TxsEnd(bs: seq<Byte>, at: nat)
    requires at <= |bs|
    ensures var r := ReadTxs(bs, at); r.Read? ==> r.next == at + 2 + HASH_SIZE * |r.value|
  {
    if TakeInt(bs, at, 2).Read? {
      SetLength(bs, at + 2, TakeInt(bs, at, 2).value);
    }
  }

  /** The reader stops after as many bytes as the header announces. */
  lemma ReadEnds(bs: seq<Byte>, at: nat)
    requires at <= |bs|
    ensures var r := ReadHeader(bs, at); r.Read? ==> r.next == at + Size(r.value)
  {
    if ReadHeader(bs, at).Read? {
      var b := at + 57;
      TipsEnd(bs, b);
      TxsEnd(bs, ReadTips(bs, b).next);
    }
  }

  /** A header read is made of the four parts read one after the other. */
  lemma PartsRead(bs: seq<Byte>, at: nat, h: Header)
    requires at <= |bs|
    ensures ReadHeader(bs, at) == Read(h, at + Size(h)) <==>
            var b := at + 57;
            var c := b + 1 + HASH_SIZE * |h.tips|;
            var d := c + 2 + HASH_SIZE * |h.txs|;
            ReadStart(bs, at) == Read(h.start, b) && b <= |bs| && ReadTips(bs, b) == Read(h.tips, c)
            && c <= |bs| && ReadTxs(bs, c) == Read(h.txs, d) && d <= |bs| && TakeHash(bs, d) == Read(h.miner, d + HASH_SIZE)
  {
    if ReadStart(bs, at).Read? {
      TipsEnd(bs, at + 57);
      if ReadTips(bs, at + 57).Read? {
        TxsEnd(bs, ReadTips(bs, at + 57).next);
      }
    }
  }

  lemma PartsWritten(bs: seq<Byte>, at: nat, h: Header)
    ensures At(bs, at, Write(h)) <==>
            var b := at + 57;
            var c := b + 1 + HASH_SIZE * |h.tips|;
            var d := c + 2 + HASH_SIZE * |h.txs|;
            At(bs, at, StartBytes(h.start)) && At(bs, b, TipsBytes(h.tips)) && At(bs, c, TxsBytes(h.txs)) && At(bs, d, h.miner)
  {
    var b := at + 57;
    var c := b + 1 + HASH_SIZE * |h.tips|;
    AtSplit(bs, at, StartBytes(h.start), TipsBytes(h.tips) + (TxsBytes(h.txs) + h.miner));
    AtSplit(bs, b, TipsBytes(h.tips), TxsBytes(h.txs) + h.miner);
    AtSplit(bs, c, TxsBytes(h.txs), h.miner);
  }

  /** Each part is read from where it stands. */
  lemma PartsAgree(bs: seq<Byte>, at: nat, h: Header, b: nat, c: nat, d: nat)
    requires at <= |bs| && b == at + 57 && c == b + 1 + HASH_SIZE * |h.tips| && d == c + 2 + HASH_SIZE * |h.txs| <= |bs|
    ensures ReadStart(bs, at) == Read(h.start, b) <==> At(bs, at, StartBytes(h.start))
    ensures ReadTips(bs, b) == Read(h.tips, c)
            <==> |h.tips| <= TIPS_LIMIT && Distinct(h.tips) && At(bs, b, TipsBytes(h.tips))
    ensures ReadTxs(bs, c) == Read(h.txs, d)
            <==> |h.txs| <= 65535 && Distinct(h.txs) && At(bs, c, TxsBytes(h.txs))
    ensures TakeHash(bs, d) == Read(h.miner, d + HASH_SIZE) <==> At(bs, d, h.miner)
  {
    StartAt(bs, at, h.start);
    TipsAt(bs, b, h.tips);
    TxsAt(bs, c, h.txs);
    HashAt(bs, d, h.miner);
  }

  /**
   * The reader takes a header from the bytes exactly when the bytes there are what the
   * writer puts down for it and the header is within the limits.
   */
  lemma ReadsExactlyWhatIsWritten(bs: seq<Byte>, at: nat, h: Header)
    requires at <= |bs|
    ensures ReadHeader(bs, at) == Read(h, at + Size(h)) <==> Sets(h) && WithinLimits(h) && At(bs, at, Write(h))
  {
    var b := at + 57;
    var c := b + 1 + HASH_SIZE * |h.tips|;
    var d := c + 2 + HASH_SIZE * |h.txs|;
    PartsWritten(bs, at, h);
    PartsRead(bs, at, h);
    if d <= |bs| {
      PartsAgree(bs, at, h, b, c, d);
    }
  }

  /** A header followed by anything comes back, in exactly `Size` bytes, exactly when it is within the limits. */
  lemma RoundTripsExactlyWithinLimits(h: Header, rest: seq<Byte>)
    requires Sets(h)
    ensures |Write(h)| == Size(h)
    ensures ReadHeader(Write(h) + rest, 0) == Read(h, Size(h)) <==> WithinLimits(h)
  {
    AtWhole([], Write(h), rest);
    assert [] + Write(h) + rest == Write(h) + rest;
    ReadsExactlyWhatIsWritten(Write(h) + rest, 0, h);
  }

  /** Every accepted byte string is the one its header is written as: the form is canonical. */
  lemma AcceptedIsCanonical(bs: seq<Byte>, at: nat)
    requires at <= |bs| && ReadHeader(bs, at).Read?
    ensures var Read(h, next) := ReadHeader(bs, at);
            Sets(h) && WithinLimits(h) && bs[at..next] == Write(h)
  {
    ReadEnds(bs, at);
    ReadsExactlyWhatIsWritten(bs, at, ReadHeader(bs, at).value);
  }

  lemma Between(bs: seq<Byte>, at: nat, x: seq<Byte>, rest: seq<Byte>)
    requires At(bs, at, x + rest)
    ensures At(bs, at, x) && At(bs, at + |x|, rest)
  {
    AtSplit(bs, at, x, rest);
  }

  /** Where each field of the fixed part stands. */
  lemma StartLayout(s: Start, bs: seq<Byte>, at: nat)
    requires At(bs, at, StartBytes(s))
    ensures At(bs, at, [s.version]) && At(bs, at + 1, ToBE(s.height, 8)) && At(bs, at + 9, ToBE(s.timestamp, 8))
    ensures At(bs, at + 17, ToBE(s.nonce, 8)) && At(bs, at + 25, s.extraNonce)
  {
    Between(bs, at, [s.version], ToBE(s.height, 8) + (ToBE(s.timestamp, 8) + (ToBE(s.nonce, 8) + s.extraNonce)));
    Between(bs, at + 1, ToBE(s.height, 8), ToBE(s.timestamp, 8) + (ToBE(s.nonce, 8) + s.extraNonce));
    Between(bs, at + 9, ToBE(s.timestamp, 8), ToBE(s.nonce, 8) + s.extraNonce);
    Between(bs, at + 17, ToBE(s.nonce, 8), s.extraNonce);
  }

  /** Hashes stand one behind the other, 32 bytes each. */
  lemma {:induction false} HashesLayout(s: seq<Hash>, bs: seq<Byte>, at: nat, i: nat)
    requires At(bs, at, Hashes(s)) && i < |s|
    ensures At(bs, at + HASH_SIZE * i, s[i])
    decreases |s|
  {
    var n := |s| - 1;
    Between(bs, at, Hashes(s[..n]), s[n]);
    if i < n {
      HashesLayout(s[..n], bs, at, i);
    }
  }

  lemma PartsLayout(h: Header, b: seq<Byte>)
    requires b == Write(h)
    ensures At(b, 0, StartBytes(h.start)) && At(b, 57, TipsBytes(h.tips))
    ensures At(b, 58 + HASH_SIZE * |h.tips|, TxsBytes(h.txs)) && At(b, Size(h) - HASH_SIZE, h.miner)
  {
    assert b[0..|b|] == b;
    PartsWritten(b, 0, h);
  }

  /**
   * The place of every field in the binary form: version at 0, height at 1, timestamp at 9,
   * nonce at 17, extra nonce at 25, number of tips at 57 and tips from 58 on, two bytes for the
   * number of transactions and the transactions behind them, and the miner in the last 32 bytes.
   */
  lemma FieldLayout(h: Header, b: seq<Byte>, t: nat)
    requires WithinLimits(h) && b == Write(h) && t == 58 + HASH_SIZE * |h.tips|
    ensures At(b, 0, [h.start.version]) && At(b, 1, ToBE(h.start.height, 8)) && At(b, 9, ToBE(h.start.timestamp, 8))
    ensures At(b, 17, ToBE(h.start.nonce, 8)) && At(b, 25, h.start.extraNonce)
    ensures At(b, 57, [|h.tips|]) && At(b, 58, Hashes(h.tips))
    ensures At(b, t, ToBE(|h.txs|, 2)) && At(b, t + 2, Hashes(h.txs)) && At(b, Size(h) - HASH_SIZE, h.miner)
  {
    PartsLayout(h, b);
    StartLayout(h.start, b, 0);
    Between(b, 57, [AsU8(|h.tips|)], Hashes(h.tips));
    Between(b, t, ToBE(AsU16(|h.txs|), 2), Hashes(h.txs));
  }

  lemma {:induction false} HashesInjective(s: seq<Hash>, t: seq<Hash>)
    requires Hashes(s) == Hashes(t)
    ensures s == t
    decreases |s|
  {
    assert |s| == |t|;
    if s != [] {
      var n := |s| - 1;
      LastHash(Hashes(s[..n]), s[n], Hashes(t[..n]), t[n]);
      HashesInjective(s[..n], t[..n]);
      assert s == s[..n] + [s[n]] && t == t[..n] + [t[n]];
    }
  }

  lemma LastHash(a: seq<Byte>, x: Hash, b: seq<Byte>, y: Hash)
    requires a + x == b + y && |a| == |b|
    ensures a == b && x == y
  {
    assert (a + x)[..|a|] == a && (b + y)[..|a|] == b;
    assert (a + x)[|a|..] == x && (b + y)[|a|..] == y;
  }

  // -------------------------------------------------------- the two programs

  /** The loop both index sets are read by. */
  method ReadSetFrom(r: Reader, n: nat) returns (p: Parsed<seq<Hash>>)
    requires r.Valid()
    modifies r
    ensures r.Valid() && p == ReadSet(r.bytes, old(r.total), n, [])
    ensures p.Read? ==> r.total == p.next
  {
    var found: seq<Hash> := [];
    for i := 0 to n
      invariant r.Valid()
      invariant ReadSet(r.bytes, old(r.total), n, []) == ReadSet(r.bytes, r.total, n - i, found)
    {
      var h := r.ReadBytes(HASH_SIZE);
      if h.Fail? {
        return Fail(h.error);
      }
      if h.value in found {
        return Fail(InvalidValue);
      }
      found := found + [h.value];
    }
    p := Read(found, r.total);
  }

  method ReadStartFrom(r: Reader) returns (p: Parsed<Start>)
    requires r.Valid()
    modifies r
    ensures r.Valid() && p == ReadStart(r.bytes, old(r.total))
    ensures p.Read? ==> r.total == p.next
  {
    var version := r.ReadU8();
    if version.Fail? {
      return Fail(version.error);
    }
    if version.value > 3 {
      return Fail(InvalidValue);
    }
    IntWidths();
    IntAtAny(r.bytes, r.total);
    var height := r.ReadInt(8);
    if height.Fail? {
      return Fail(height.error);
    }
    IntAtAny(r.bytes, r.total);
    var timestamp := r.ReadInt(8);
    if timestamp.Fail? {
      return Fail(timestamp.error);
    }
    IntAtAny(r.bytes, r.total);
    var nonce := r.ReadInt(8);
    if nonce.Fail? {
      return Fail(nonce.error);
    }
    var extraNonce := r.ReadBytes(HASH_SIZE);
    if extraNonce.Fail? {
      return Fail(extraNonce.error);
    }
    p := Read(Start(version.value, height.value, timestamp.value, nonce.value, extraNonce.value), r.total);
  }

  lemma IntAtAny(bs: seq<Byte>, at: nat)
    requires at <= |bs|
    ensures var r := TakeInt(bs, at, 8); r.Read? ==> r.value < TWO_64
  {
    if TakeInt(bs, at, 8).Read? {
      IntAt(bs, at, 8);
      IntWidths();
    }
  }

  method ReadHeaderFrom(r: Reader) returns (p: Parsed<Header>)
    requires r.Valid()
    modifies r
    ensures r.Valid() && p == ReadHeader(r.bytes, old(r.total))
    ensures p.Read? ==> r.total == p.next
  {
    var start := ReadStartFrom(r);
    if start.Fail? {
      return Fail(start.error);
    }
    var tipsCount := r.ReadU8();
    if tipsCount.Fail? {
      return Fail(tipsCount.error);
    }
    if tipsCount.value > TIPS_LIMIT {
      return Fail(InvalidValue);
    }
    var tips := ReadSetFrom(r, tipsCount.value);
    if tips.Fail? {
      return Fail(tips.error);
    }
    var txsCount := r.ReadInt(2);
    if txsCount.Fail? {
      return Fail(txsCount.error);
    }
    var txs := ReadSetFrom(r, txsCount.value);
    if txs.Fail? {
      return Fail(txs.error);
    }
    var miner := r.ReadBytes(HASH_SIZE);
    if miner.Fail? {
      return Fail(miner.error);
    }
    p := Read(Header(start.value, tips.value, txs.value, miner.value), r.total);
  }

  method WriteHashesTo(w: Writer, s: seq<Hash>)
    modifies w
    ensures w.bytes == old(w.bytes) + Hashes(s)
  {
    for i := 0 to |s|
      invariant w.bytes == old(w.bytes) + Hashes(s[..i])
    {
      HashesAppend(s[..i], s[i]);
      assert s[..i] + [s[i]] == s[..i + 1];
      Associate(old(w.bytes), Hashes(s[..i]), s[i]);
      w.WriteBytes(s[i]);
    }
    assert s[..|s|] == s;
  }

  method WriteStartTo(w: Writer, s: Start)
    modifies w
    ensures w.bytes == old(w.bytes) + StartBytes(s)
  {
    w.WriteBytes([s.version]);
    w.WriteInt(s.height, 8);
    w.WriteInt(s.timestamp, 8);
    w.WriteInt(s.nonce, 8);
    w.WriteBytes(s.extraNonce);
    Regroup(old(w.bytes), [s.version], ToBE(s.height, 8),
            ToBE(s.timestamp, 8) + (ToBE(s.nonce, 8) + s.extraNonce));
    Regroup(old(w.bytes) + [s.version] + ToBE(s.height, 8), ToBE(s.timestamp, 8), ToBE(s.nonce, 8), s.extraNonce);
  }

  lemma Regroup(a: seq<Byte>, b: seq<Byte>, c: seq<Byte>, d: seq<Byte>)
    ensures a + (b + (c + d)) == a + b + c + d
  {
    Associate(a, b, c + d);
    Associate(a + b, c, d);
  }

  method WriteHeaderTo(w: Writer, h: Header)
    modifies w
    ensures w.bytes == old(w.bytes) + Write(h)
  {
    WriteStartTo(w, h.start);
    ghost var w1 := w.bytes;
    w.WriteBytes([AsU8(|h.tips|)]);
    WriteHashesTo(w, h.tips);
    Associate(w1, [AsU8(|h.tips|)], Hashes(h.tips));
    ghost var w2 := w.bytes;
    w.WriteInt(AsU16(|h.txs|), 2);
    WriteHashesTo(w, h.txs);
    Associate(w2, ToBE(AsU16(|h.txs|), 2), Hashes(h.txs));
    w.WriteBytes(h.miner);
    Associate(w2, TxsBytes(h.txs), h.miner);
    Regroup(old(w.bytes), StartBytes(h.start), TipsBytes(h.tips), TxsBytes(h.txs) + h.miner);
  }
}
