/** Splitting a read result into READ_RES chunks on the server, and putting chunks that
    arrive in any order back together on the client. */
module Chunks {
  import opened Bytes
  import opened Messages

  /** A byte vector: no Rust allocation is longer than `isize::MAX`. */
  type Data = s: seq<byte> | |s| < 0x8000_0000_0000_0000 witness []

  function Min(a: nat, b: nat): nat {
    if a < b then a else b
  }

  // ----- Splitting -----

  /** How many chunks carry `data`: one for the empty result, else one per started block. */
  function ChunkCount(data: Data): (n: nat)
    ensures n >= 1
  {
    if data == [] then 1 else (|data| + MAX_READ_RES_CHUNK - 1) / MAX_READ_RES_CHUNK
  }

  function ChunkStart(data: Data, i: nat): nat {
    Min(i * MAX_READ_RES_CHUNK, |data|)
  }

  /** Chunk `i`: the bytes of block `i`, under their offset and the total length. */
  function Chunk(id: u32, data: Data, i: nat): Message {
    ReadRes(id, |data|, ChunkStart(data, i), data[ChunkStart(data, i)..ChunkStart(data, i + 1)])
  }

  function ChunksOf(id: u32, data: Data): (chunks: seq<Message>)
    ensures |chunks| == ChunkCount(data)
  {
    seq(ChunkCount(data), i requires 0 <= i => Chunk(id, data, i))
  }

  lemma ChunkStarts(data: Data, i: nat)
    requires i < ChunkCount(data)
    ensures ChunkStart(data, i) == i * MAX_READ_RES_CHUNK
    ensures data != [] ==> ChunkStart(data, i) < ChunkStart(data, i + 1)
    ensures ChunkStart(data, i + 1) - ChunkStart(data, i) <= MAX_READ_RES_CHUNK
    ensures i + 1 == ChunkCount(data) <==> ChunkStart(data, i + 1) == |data|
  {
  }

  /** Every chunk fits its 16-bit length field. */
  lemma ChunksFit(id: u32, data: Data)
    ensures forall m | m in ChunksOf(id, data) :: m.ReadRes? && m.requestId == id && WellSized(m)
  {
    forall m | m in ChunksOf(id, data) ensures m.ReadRes? && m.requestId == id && WellSized(m) {
      var i :| 0 <= i < ChunkCount(data) && m == ChunksOf(id, data)[i];
      ChunkStarts(data, i);
    }
  }

  method AssembleReadResChunks(id: u32, data: Data) returns (chunks: seq<Message>)
    ensures chunks == ChunksOf(id, data)
  {
    if data == [] {
      chunks := [ReadRes(id, 0, 0, [])];
      assert Chunk(id, data, 0) == chunks[0];
      return;
    }
    chunks := [];
    var head := 0;
    while head < |data|
      invariant |chunks| <= ChunkCount(data)
      invariant head == ChunkStart(data, |chunks|) <= |data|
      invariant head == |data| <==> |chunks| == ChunkCount(data)
      invariant forall i | 0 <= i < |chunks| :: chunks[i] == Chunk(id, data, i)
      decreases |data| - head
    {
      ChunkStarts(data, |chunks|);
      var remaining := |data| - head;
      var chunkLen := Min(remaining, MAX_READ_RES_CHUNK);
      var chunk := data[head..head + chunkLen];
      chunks := chunks + [ReadRes(id, |data|, head, chunk)];
      head := head + chunkLen;
    }
  }

  // ----- Reassembling -----

  predicate IsLeast(k: u64, keys: set<u64>) {
    k in keys && forall j | j in keys :: k <= j
  }

  lemma {:induction false} LeastExists(keys: set<u64>)
    requires keys != {}
    ensures exists k :: IsLeast(k, keys)
    decreases |keys|
  {
    var x :| x in keys;
    if IsLeast(x, keys) {
    } else {
      var rest := keys - {x};
      var lower :| lower in keys && lower < x;
      assert lower in rest;
      LeastExists(rest);
      var k :| IsLeast(k, rest);
      assert k <= lower;
      forall j | j in keys ensures k <= j {
        assert j == x || j in rest;
      }
      assert IsLeast(k, keys);
    }
  }

  /** The values of an ordered map in ascending key order, joined. */
  function InOrder(m: map<u64, seq<byte>>): seq<byte>
    decreases |m|
  {
    if m == map[] then []
    else
      assert m.Keys != {};
      LeastExists(m.Keys);
      var k :| k in m.Keys && IsLeast(k, m.Keys);
      assert (m - {k}).Keys == m.Keys - {k};
      m[k] + InOrder(m - {k})
  }

  datatype Waited<+T> = Ready(value: T) | Refused(error: Message) | Waiting

  /** The client's reassembly state: the chunks by offset, and how many bytes arrived. */
  datatype Assembly = Assembly(chunks: map<u64, seq<byte>>, received: nat)

  const NOTHING := Assembly(map[], 0)

  function Absorb(st: Assembly, m: Message): Assembly
    requires m.ReadRes?
  {
    Assembly(st.chunks[m.chunkOffset := m.data], st.received + |m.data|)
  }

  /** What the wait loop makes of the messages delivered to its listener, in order. It
      returns the moment the byte count matches, before looking at anything later. */
  function Combine(st: Assembly, inbox: seq<Message>): Waited<seq<byte>>
    decreases |inbox|
  {
    if inbox == [] then Waiting
    else if inbox[0].ReadRes? then
      var next := Absorb(st, inbox[0]);
      if next.received == inbox[0].totalLength then Ready(InOrder(next.chunks)) else Combine(next, inbox[1..])
    else if inbox[0].Error? then Refused(inbox[0])
    else Combine(st, inbox[1..])
  }

  method CombineReadChunks(inbox: seq<Message>) returns (r: Waited<seq<byte>>)
    ensures r == Combine(NOTHING, inbox)
  {
    var chunks: map<u64, seq<byte>> := map[];
    var received: nat := 0;
    var i := 0;
    while i < |inbox|
      invariant 0 <= i <= |inbox|
      invariant Combine(NOTHING, inbox) == Combine(Assembly(chunks, received), inbox[i..])
    {
      var m := inbox[i];
      match m {
        case ReadRes(_, totalLength, chunkOffset, data) =>
          received := received + |data|;
          chunks := chunks[chunkOffset := data];
          if received == totalLength {
            return Ready(InOrder(chunks));
          }
        case Error(_, _, _) =>
          return Refused(m);
        case _ =>
      }
      i := i + 1;
    }
    return Waiting;
  }

  // ----- Any arrival order -----

  /** The chunks with the indices in `seen`, by offset. */
  ghost function Table(data: Data, seen: set<nat>): map<u64, seq<byte>> {
    map k: u64 | k % MAX_READ_RES_CHUNK == 0 && k / MAX_READ_RES_CHUNK in seen ::
      data[Min(k, |data|)..Min(k + MAX_READ_RES_CHUNK, |data|)]
  }

  ghost function BytesSeen(data: Data, seen: set<nat>, n: nat): nat {
    if n == 0 then 0
    else BytesSeen(data, seen, n - 1) + if n - 1 in seen then ChunkStart(data, n) - ChunkStart(data, n - 1) else 0
  }

  ghost predicate SeenAll(seen: set<nat>, n: nat) {
    forall i: nat | i < n :: i in seen
  }

  lemma {:induction false} BytesSeenGrows(data: Data, seen: set<nat>, i: nat, n: nat)
    requires i !in seen
    ensures BytesSeen(data, seen + {i}, n)
         == BytesSeen(data, seen, n) + if i < n then ChunkStart(data, i + 1) - ChunkStart(data, i) else 0
  {
    if n > 0 {
      BytesSeenGrows(data, seen, i, n - 1);
    }
  }

  /** The byte count reaches the total exactly when no chunk is missing. */
  lemma {:induction false} BytesSeenComplete(data: Data, seen: set<nat>, n: nat)
    requires data != [] && n <= ChunkCount(data)
    ensures BytesSeen(data, seen, n) <= ChunkStart(data, n)
    ensures BytesSeen(data, seen, n) == ChunkStart(data, n) <==> SeenAll(seen, n)
  {
    if n > 0 {
      BytesSeenComplete(data, seen, n - 1);
      ChunkStarts(data, n - 1);
    }
  }

  lemma InOrderStep(m: map<u64, seq<byte>>, k: u64)
    requires IsLeast(k, m.Keys)
    ensures InOrder(m) == m[k] + InOrder(m - {k})
  {
    LeastExists(m.Keys);
    var least :| least in m.Keys && IsLeast(least, m.Keys) && InOrder(m) == m[least] + InOrder(m - {least});
    assert least == k;
  }

  ghost function From(k: nat, n: nat): (s: set<nat>)
    ensures forall i :: i in s <==> k <= i < n
    decreases n - k
  {
    if k >= n then {} else {k} + From(k + 1, n)
  }

  lemma TableStep(data: Data, k: nat)
    requires k < ChunkCount(data)
    ensures var t, o := Table(data, From(k, ChunkCount(data))), k * MAX_READ_RES_CHUNK;
      && o == ChunkStart(data, k) && IsLeast(o, t.Keys)
      && t[o] == data[o..ChunkStart(data, k + 1)]
      && t - {o} == Table(data, From(k + 1, ChunkCount(data)))
  {
    TableFirst(data, k);
    TableRest(data, k);
    hide Table, From, ChunkStart, ChunkCount;
  }

  lemma TableFirst(data: Data, k: nat)
    requires k < ChunkCount(data)
    ensures var t, o := Table(data, From(k, ChunkCount(data))), k * MAX_READ_RES_CHUNK;
      o == ChunkStart(data, k) && IsLeast(o, t.Keys) && t[o] == data[o..ChunkStart(data, k + 1)]
  {
    ChunkStarts(data, k);
    var t, o := Table(data, From(k, ChunkCount(data))), k * MAX_READ_RES_CHUNK;
    assert o / MAX_READ_RES_CHUNK == k && o % MAX_READ_RES_CHUNK == 0;
    forall j | j in t ensures o <= j {
    }
  }

  lemma TableRest(data: Data, k: nat)
    requires k < ChunkCount(data)
    ensures Table(data, From(k, ChunkCount(data))) - {k * MAX_READ_RES_CHUNK}
         == Table(data, From(k + 1, ChunkCount(data)))
  {
    var n := ChunkCount(data);
    var t, o := Table(data, From(k, n)), k * MAX_READ_RES_CHUNK;
    var rest := Table(data, From(k + 1, n));
    forall j: u64 ensures j in t && j != o <==> j in rest {
    }
    assert (t - {o}).Keys == rest.Keys;
  }

  lemma TableEmpty(data: Data)
    ensures InOrder(Table(data, From(ChunkCount(data), ChunkCount(data)))) == []
    ensures ChunkStart(data, ChunkCount(data)) == |data|
  {
    assert Table(data, From(ChunkCount(data), ChunkCount(data))) == map[];
  }

  lemma StartsWithin(data: Data, k: nat)
    ensures ChunkStart(data, k) <= ChunkStart(data, k + 1) <= |data|
  {
  }

  lemma {:induction false} TableInOrder(data: Data, k: nat)
    requires k <= ChunkCount(data)
    ensures ChunkStart(data, k) <= |data|
    ensures InOrder(Table(data, From(k, ChunkCount(data)))) == data[ChunkStart(data, k)..]
    decreases ChunkCount(data) - k
  {
    hide InOrder, Table, From, ChunkStart, ChunkCount;
    if k == ChunkCount(data) {
      TableEmpty(data);
    } else {
      ChunkStarts(data, k);
      TableStep(data, k);
      InOrderStep(Table(data, From(k, ChunkCount(data))), k * MAX_READ_RES_CHUNK);
      TableInOrder(data, k + 1);
      var lo, hi := ChunkStart(data, k), ChunkStart(data, k + 1);
      StartsWithin(data, k);
      assert data[lo..hi] + data[hi..] == data[lo..];
    }
  }

  // ----- Reassembly -----

  function Reads(inbox: seq<Message>): seq<Message>
    decreases |inbox|
  {
    if inbox == [] then []
    else if inbox[0].ReadRes? then [inbox[0]] + Reads(inbox[1..])
    else Reads(inbox[1..])
  }

  lemma {:induction false} ReadsMembers(inbox: seq<Message>, m: Message)
    ensures m in Reads(inbox) <==> m in inbox && m.ReadRes?
    decreases |inbox|
  {
    if inbox != [] {
      ReadsMembers(inbox[1..], m);
      assert inbox == [inbox[0]] + inbox[1..];
    }
  }

  ghost predicate NoErrors(inbox: seq<Message>) {
    forall m | m in inbox :: !m.Error?
  }

  ghost predicate Distinct(ms: seq<Message>) {
    forall i, j | 0 <= i < j < |ms| :: ms[i] != ms[j]
  }

  ghost predicate IsChunk(id: u32, data: Data, m: Message, i: nat) {
    i < ChunkCount(data) && m == Chunk(id, data, i)
  }

  /** Every READ_RES in `inbox` is one of the chunks outside `seen`, and none comes twice. */
  ghost predicate Pending(id: u32, data: Data, seen: set<nat>, inbox: seq<Message>) {
    && NoErrors(inbox)
    && Distinct(Reads(inbox))
    && forall m | m in Reads(inbox) :: exists i :: IsChunk(id, data, m, i) && i !in seen
  }

  ghost predicate Arrived(id: u32, data: Data, seen: set<nat>, inbox: seq<Message>) {
    forall i: nat | i < ChunkCount(data) :: i in seen || Chunk(id, data, i) in inbox
  }

  ghost function After(data: Data, seen: set<nat>): Assembly {
    Assembly(Table(data, seen), BytesSeen(data, seen, ChunkCount(data)))
  }

  lemma AbsorbChunk(id: u32, data: Data, seen: set<nat>, i: nat)
    requires i < ChunkCount(data) && i !in seen
    ensures Absorb(After(data, seen), Chunk(id, data, i)) == After(data, seen + {i})
  {
    BytesSeenGrows(data, seen, i, ChunkCount(data));
    ChunkStarts(data, i);
    var o := ChunkStart(data, i);
    assert o / MAX_READ_RES_CHUNK == i && o % MAX_READ_RES_CHUNK == 0;
    assert Table(data, seen)[o := data[o..ChunkStart(data, i + 1)]] == Table(data, seen + {i});
  }

  lemma ChunkShape(id: u32, data: Data, i: nat)
    ensures Chunk(id, data, i).ReadRes? && Chunk(id, data, i).totalLength == |data|
    ensures Chunk(id, data, i).requestId == id
  {
  }

  lemma ChunkDetermines(id: u32, data: Data, i: nat, j: nat)
    requires i < ChunkCount(data) && j < ChunkCount(data)
    requires Chunk(id, data, i) == Chunk(id, data, j)
    ensures i == j
  {
    ChunkStarts(data, i);
    ChunkStarts(data, j);
  }

  lemma NextPending(id: u32, data: Data, seen: set<nat>, inbox: seq<Message>, i: nat)
    requires inbox != [] && Pending(id, data, seen, inbox)
    requires IsChunk(id, data, inbox[0], i) && i !in seen
    ensures Pending(id, data, seen + {i}, inbox[1..])
    ensures Arrived(id, data, seen + {i}, inbox[1..]) <==> Arrived(id, data, seen, inbox)
  {
    hide ChunkStart, ChunkCount, Chunk;
    var m, rest := inbox[0], inbox[1..];
    ChunkShape(id, data, i);
    assert inbox == [m] + rest && Reads(inbox) == [m] + Reads(rest);
    forall r | r in Reads(rest) ensures exists j :: IsChunk(id, data, r, j) && j !in seen + {i} {
      assert r in Reads(inbox);
      var j :| IsChunk(id, data, r, j) && j !in seen;
      var k :| 0 <= k < |Reads(rest)| && Reads(rest)[k] == r;
      assert Reads(inbox)[0] != Reads(inbox)[k + 1];
      assert IsChunk(id, data, r, j) && j !in seen + {i};
    }
    forall a, b | 0 <= a < b < |Reads(rest)| ensures Reads(rest)[a] != Reads(rest)[b] {
      assert Reads(inbox)[a + 1] != Reads(inbox)[b + 1];
    }
    forall j: nat | j < ChunkCount(data) && Chunk(id, data, j) == m ensures j == i {
      ChunkDetermines(id, data, i, j);
    }
  }

  lemma SkipPending(id: u32, data: Data, seen: set<nat>, inbox: seq<Message>)
    requires inbox != [] && Pending(id, data, seen, inbox) && !inbox[0].ReadRes?
    ensures Pending(id, data, seen, inbox[1..])
    ensures Arrived(id, data, seen, inbox[1..]) <==> Arrived(id, data, seen, inbox)
  {
    hide ChunkStart, ChunkCount, Chunk;
    assert inbox == [inbox[0]] + inbox[1..];
    forall j ensures Chunk(id, data, j) != inbox[0] {
      ChunkShape(id, data, j);
    }
  }

  lemma {:induction false} CombineFrom(id: u32, data: Data, seen: set<nat>, inbox: seq<Message>)
    requires data != []
    requires seen <= From(0, ChunkCount(data)) && !SeenAll(seen, ChunkCount(data))
    requires Pending(id, data, seen, inbox)
    ensures Combine(After(data, seen), inbox) == if Arrived(id, data, seen, inbox) then Ready(data) else Waiting
    decreases |inbox|
  {
    hide InOrder, Table, BytesSeen, ChunkStart, ChunkCount, Chunk, Absorb, Pending, Arrived;
    var n := ChunkCount(data);
    if inbox == [] {
      NotArrived(id, data, seen);
    } else if inbox[0].ReadRes? {
      var i := NextIndex(id, data, seen, inbox);
      var seen' := seen + {i};
      AbsorbChunk(id, data, seen, i);
      BytesSeenComplete(data, seen', n);
      TableEmpty(data);
      ChunkShape(id, data, i);
      NextPending(id, data, seen, inbox, i);
      if SeenAll(seen', n) {
        assert seen' == From(0, n);
        TableInOrder(data, 0);
        AllArrived(id, data, seen', inbox[1..]);
        StartsAtZero(data);
      } else {
        CombineFrom(id, data, seen', inbox[1..]);
      }
    } else {
      SkipPending(id, data, seen, inbox);
      NotAnError(id, data, seen, inbox);
      CombineFrom(id, data, seen, inbox[1..]);
    }
  }

  lemma StartsAtZero(data: Data)
    ensures ChunkStart(data, 0) == 0 && data[ChunkStart(data, 0)..] == data
  {
  }

  lemma NotArrived(id: u32, data: Data, seen: set<nat>)
    requires !SeenAll(seen, ChunkCount(data))
    ensures !Arrived(id, data, seen, [])
  {
    hide ChunkCount, Chunk;
  }

  lemma AllArrived(id: u32, data: Data, seen: set<nat>, inbox: seq<Message>)
    requires SeenAll(seen, ChunkCount(data))
    ensures Arrived(id, data, seen, inbox)
  {
    hide ChunkCount, Chunk;
  }

  lemma NotAnError(id: u32, data: Data, seen: set<nat>, inbox: seq<Message>)
    requires inbox != [] && Pending(id, data, seen, inbox)
    ensures !inbox[0].Error?
  {
    assert inbox[0] in inbox;
  }

  lemma NextIndex(id: u32, data: Data, seen: set<nat>, inbox: seq<Message>) returns (i: nat)
    requires inbox != [] && Pending(id, data, seen, inbox) && inbox[0].ReadRes?
    ensures IsChunk(id, data, inbox[0], i) && i !in seen
  {
    hide ChunkCount, Chunk;
    assert inbox[0] in Reads(inbox);
    i :| IsChunk(id, data, inbox[0], i) && i !in seen;
  }

  // ----- The reassembly theorem -----

  lemma {:induction false} NoReads(inbox: seq<Message>)
    requires NoErrors(inbox) && Reads(inbox) == []
    ensures Combine(NOTHING, inbox) == Waiting
    decreases |inbox|
  {
    if inbox != [] {
      assert inbox == [inbox[0]] + inbox[1..];
      NoReads(inbox[1..]);
    }
  }

  lemma {:induction false} EmptyRead(id: u32, inbox: seq<Message>)
    requires NoErrors(inbox)
    requires forall m | m in Reads(inbox) :: m == Chunk(id, [], 0)
    ensures Combine(NOTHING, inbox) == if Reads(inbox) != [] then Ready([]) else Waiting
    decreases |inbox|
  {
    if inbox != [] {
      assert inbox == [inbox[0]] + inbox[1..];
      assert inbox[0] in inbox;
      if inbox[0].ReadRes? {
        assert inbox[0] in Reads(inbox);
        var t: map<u64, seq<byte>> := map[0 := []];
        InOrderStep(t, 0);
        assert t - {0} == map[];
      } else {
        assert Reads(inbox) == Reads(inbox[1..]);
        EmptyRead(id, inbox[1..]);
      }
    }
  }

  ghost predicate SomeChunksOnce(id: u32, data: Data, inbox: seq<Message>) {
    NoErrors(inbox) && multiset(Reads(inbox)) <= multiset(ChunksOf(id, data))
  }

  lemma ChunksDistinct(id: u32, data: Data)
    ensures Distinct(ChunksOf(id, data))
  {
    hide ChunkCount, Chunk;
    var cs := ChunksOf(id, data);
    forall i, j | 0 <= i < j < |cs| ensures cs[i] != cs[j] {
      if cs[i] == cs[j] {
        ChunkDetermines(id, data, i, j);
      }
    }
  }

  lemma {:induction false} DistinctOnce(ms: seq<Message>, m: Message)
    requires Distinct(ms)
    ensures multiset(ms)[m] <= 1
    decreases |ms|
  {
    if ms != [] {
      assert ms == [ms[0]] + ms[1..];
      assert forall i | 0 <= i < |ms[1..]| :: ms[1..][i] == ms[i + 1];
      DistinctOnce(ms[1..], m);
      if m == ms[0] {
        assert m !in ms[1..];
        assert multiset(ms[1..])[m] == 0;
      }
    }
  }

  lemma SubDistinct(ms: seq<Message>, all: seq<Message>)
    requires Distinct(all) && multiset(ms) <= multiset(all)
    ensures Distinct(ms)
    ensures forall m | m in ms :: m in all
  {
    forall i, j | 0 <= i < j < |ms| ensures ms[i] != ms[j] {
      if ms[i] == ms[j] {
        assert ms == ms[..i] + [ms[i]] + ms[i + 1..j] + [ms[j]] + ms[j + 1..];
        assert multiset(ms)[ms[i]] >= 2;
        DistinctOnce(all, ms[i]);
      }
    }
    forall m | m in ms ensures m in all {
      assert m in multiset(ms);
      assert m in multiset(all);
    }
  }

  lemma OncePending(id: u32, data: Data, inbox: seq<Message>)
    requires SomeChunksOnce(id, data, inbox)
    ensures Pending(id, data, {}, inbox)
  {
    hide ChunkCount, Chunk;
    ChunksDistinct(id, data);
    SubDistinct(Reads(inbox), ChunksOf(id, data));
    forall m | m in Reads(inbox) ensures exists i :: IsChunk(id, data, m, i) && i !in {} {
      var i :| 0 <= i < |ChunksOf(id, data)| && ChunksOf(id, data)[i] == m;
      assert IsChunk(id, data, m, i) && i !in {};
    }
  }

  lemma ArrivedWhenAll(id: u32, data: Data, inbox: seq<Message>)
    requires SomeChunksOnce(id, data, inbox)
    ensures Arrived(id, data, {}, inbox) <==> multiset(Reads(inbox)) == multiset(ChunksOf(id, data))
  {
    hide ChunkCount, Chunk;
    var cs := ChunksOf(id, data);
    ChunksDistinct(id, data);
    forall i: nat | i < |cs| ensures cs[i] in inbox <==> cs[i] in multiset(Reads(inbox)) {
      ReadsMembers(inbox, cs[i]);
      ChunkShape(id, data, i);
    }
    if multiset(Reads(inbox)) == multiset(cs) {
      forall i: nat | i < |cs| ensures Chunk(id, data, i) in inbox {
        assert cs[i] in multiset(cs);
      }
    }
    if Arrived(id, data, {}, inbox) {
      forall m ensures multiset(cs)[m] <= multiset(Reads(inbox))[m] {
        DistinctOnce(cs, m);
        if m in cs {
          var i: nat :| i < |cs| && cs[i] == m;
          assert Chunk(id, data, i) in inbox;
        }
      }
    }
  }

  /** Chunks in any order, each at most once, with any messages that are neither chunks nor
      errors among them: the wait loop returns the data exactly when every chunk is there,
      and is still waiting as long as one is missing. */
  lemma Reassembly(id: u32, data: Data, inbox: seq<Message>)
    requires SomeChunksOnce(id, data, inbox)
    ensures Combine(NOTHING, inbox) ==
            if multiset(Reads(inbox)) == multiset(ChunksOf(id, data)) then Ready(data) else Waiting
  {
    OncePending(id, data, inbox);
    ArrivedWhenAll(id, data, inbox);
    if data == [] {
      EmptyReassembly(id, inbox);
    } else {
      StartsEmpty(data);
      CombineFrom(id, data, {}, inbox);
    }
  }

  lemma StartsEmpty(data: Data)
    requires data != []
    ensures After(data, {}) == NOTHING && !SeenAll({}, ChunkCount(data))
  {
    assert Table(data, {}) == map[];
    NothingSeen(data, ChunkCount(data));
    OneMissing({}, 0, ChunkCount(data));
  }

  lemma OneMissing(seen: set<nat>, i: nat, n: nat)
    requires i < n && i !in seen
    ensures !SeenAll(seen, n)
  {
  }

  lemma {:induction false} NothingSeen(data: Data, n: nat)
    ensures BytesSeen(data, {}, n) == 0
  {
    if n > 0 {
      NothingSeen(data, n - 1);
    }
  }

  lemma EmptyReassembly(id: u32, inbox: seq<Message>)
    requires SomeChunksOnce(id, [], inbox)
    ensures Combine(NOTHING, inbox) ==
            if multiset(Reads(inbox)) == multiset(ChunksOf(id, [])) then Ready([]) else Waiting
  {
    var cs := ChunksOf(id, []);
    assert cs == [Chunk(id, [], 0)];
    forall m | m in Reads(inbox) ensures m == Chunk(id, [], 0) {
      assert m in multiset(Reads(inbox));
      assert m in multiset(cs);
    }
    EmptyRead(id, inbox);
    if Reads(inbox) != [] {
      assert Reads(inbox)[0] in multiset(Reads(inbox));
    } else {
      assert |multiset(cs)| == 1;
    }
  }

  /** A chunk delivered twice is counted twice: the loop then returns before the second
      chunk of the data has arrived, so exactly-once delivery is a real obligation of the
      sender. */
  lemma DuplicateReturnsEarly(id: u32, data: Data, first: Message)
    requires |data| == 2 * MAX_READ_RES_CHUNK
    requires first == Chunk(id, data, 0)
    ensures Combine(NOTHING, [first, first]) == Ready(data[..MAX_READ_RES_CHUNK]) != Ready(data)
  {
    var t: map<u64, seq<byte>> := map[0 := first.data];
    assert t[0 := first.data] == t;
    InOrderStep(t, 0);
    assert t - {0} == map[];
    var one := Absorb(NOTHING, first);
    assert |first.data| == MAX_READ_RES_CHUNK && first.totalLength == |data|;
    assert [first, first][1..] == [first];
    assert Combine(NOTHING, [first, first]) == Combine(one, [first]);
    assert Absorb(one, first).received == |data| && Absorb(one, first).chunks == t;
    assert InOrder(t) == first.data == data[..MAX_READ_RES_CHUNK];
  }
}
