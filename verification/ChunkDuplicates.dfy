/** What duplicates do to the client's reassembly: exactly when it returns the data, when it
    returns something else, and when it waits for ever. */
module ChunkDuplicates {
  import opened Bytes
  import opened Messages
  import opened Chunks

  /** Every READ_RES there is one of the chunks of `data`, any number of times. */
  ghost predicate OnlyChunks(id: u32, data: Data, inbox: seq<Message>) {
    forall i | 0 <= i < |inbox| && inbox[i].ReadRes? :: exists k :: IsChunk(id, data, inbox[i], k)
  }

  /** Each chunk is there, and none twice. */
  ghost predicate EachOnce(id: u32, data: Data, inbox: seq<Message>) {
    NoErrors(inbox) && multiset(Reads(inbox)) == multiset(ChunksOf(id, data))
  }

  // ----- The chunks still missing -----

  ghost function Missing(id: u32, data: Data, seen: set<nat>, n: nat): multiset<Message> {
    if n == 0 then multiset{} else Missing(id, data, seen, n - 1) + Lone(n - 1 !in seen, Chunk(id, data, n - 1))
  }

  ghost function Lone(there: bool, m: Message): multiset<Message> {
    if there then multiset{m} else multiset{}
  }

  lemma {:induction false} MissingDrops(id: u32, data: Data, seen: set<nat>, i: nat, n: nat)
    requires i !in seen
    ensures Missing(id, data, seen, n) == Missing(id, data, seen + {i}, n) + Lone(i < n, Chunk(id, data, i))
  {
    hide Lone, Chunk;
    Unfold(id, data, seen, n);
    Unfold(id, data, seen + {i}, n);
    hide Missing;
    if n > 0 {
      MissingDrops(id, data, seen, i, n - 1);
      DropStep(Missing(id, data, seen + {i}, n - 1), i, n - 1, n - 1 !in seen, Chunk(id, data, i), Chunk(id, data, n - 1));
    } else {
      NoneDropped(Chunk(id, data, i));
    }
  }

  lemma Unfold(id: u32, data: Data, seen: set<nat>, n: nat)
    ensures Missing(id, data, seen, n)
         == if n == 0 then multiset{} else Missing(id, data, seen, n - 1) + Lone(n - 1 !in seen, Chunk(id, data, n - 1))
  {
  }

  lemma NoneDropped(c: Message)
    ensures multiset{} + Lone(false, c) == multiset{}
  {
  }

  lemma DropStep(before: multiset<Message>, i: nat, j: nat, there: bool, c: Message, d: Message)
    requires i == j ==> there && c == d
    ensures before + Lone(i < j, c) + Lone(there, d)
         == before + Lone(there && i != j, d) + Lone(i < j + 1, c)
  {
  }

  lemma {:induction false} NothingMissing(id: u32, data: Data, seen: set<nat>, n: nat)
    requires SeenAll(seen, n)
    ensures Missing(id, data, seen, n) == multiset{}
  {
    hide Chunk;
    if n > 0 {
      NothingMissing(id, data, seen, n - 1);
    }
  }

  lemma {:induction false} AllMissing(id: u32, data: Data, n: nat)
    requires n <= ChunkCount(data)
    ensures Missing(id, data, {}, n) == multiset(ChunksOf(id, data)[..n])
  {
    hide Chunk, ChunkCount, Missing;
    var cs := ChunksOf(id, data);
    Unfold(id, data, {}, n);
    if n > 0 {
      AllMissing(id, data, n - 1);
      assert cs[..n] == cs[..n - 1] + [cs[n - 1]];
      hide ChunksOf;
      OneMoreOf(cs[..n - 1], cs[n - 1]);
    }
  }

  lemma OneMoreOf(ms: seq<Message>, m: Message)
    ensures multiset(ms + [m]) == multiset(ms) + Lone(true, m)
  {
  }

  // ----- How many bytes are really there -----

  lemma TableAbsorbs(data: Data, seen: set<nat>, i: nat)
    requires i < ChunkCount(data)
    ensures Table(data, seen)[ChunkStart(data, i) := data[ChunkStart(data, i)..ChunkStart(data, i + 1)]]
         == Table(data, seen + {i})
  {
    ChunkStarts(data, i);
    var o := ChunkStart(data, i);
    assert o / MAX_READ_RES_CHUNK == i && o % MAX_READ_RES_CHUNK == 0;
  }

  lemma TableWithout(data: Data, seen: set<nat>, i: nat)
    requires i in seen && i < ChunkCount(data)
    ensures ChunkStart(data, i) in Table(data, seen)
    ensures Table(data, seen)[ChunkStart(data, i)] == data[ChunkStart(data, i)..ChunkStart(data, i + 1)]
    ensures Table(data, seen) - {ChunkStart(data, i)} == Table(data, seen - {i})
  {
    ChunkStarts(data, i);
    var o := ChunkStart(data, i);
    assert o / MAX_READ_RES_CHUNK == i && o % MAX_READ_RES_CHUNK == 0;
  }

  /** The chunks with the indices in `seen`, joined, are as long as those chunks together. */
  lemma {:induction false} InOrderLength(data: Data, seen: set<nat>)
    requires seen <= From(0, ChunkCount(data))
    ensures |InOrder(Table(data, seen))| == BytesSeen(data, seen, ChunkCount(data))
    decreases |seen|
  {
    hide InOrder, ChunkStart, ChunkCount, BytesSeen;
    var n := ChunkCount(data);
    if seen == {} {
      assert Table(data, seen) == map[];
      NothingSeen(data, n);
      EmptyInOrder();
    } else {
      var i := LeastSeen(data, seen);
      TableWithout(data, seen, i);
      InOrderStep(Table(data, seen), ChunkStart(data, i));
      InOrderLength(data, seen - {i});
      assert seen - {i} + {i} == seen;
      BytesSeenGrows(data, seen - {i}, i, n);
      StartsWithin(data, i);
    }
  }

  lemma EmptyInOrder()
    ensures InOrder(map[]) == []
  {
  }

  lemma LeastSeen(data: Data, seen: set<nat>) returns (i: nat)
    requires seen != {} && seen <= From(0, ChunkCount(data))
    ensures i in seen && i < ChunkCount(data) && IsLeast(ChunkStart(data, i), Table(data, seen).Keys)
  {
    var t := Table(data, seen);
    var j :| j in seen;
    TableWithout(data, seen, j);
    LeastExists(t.Keys);
    var k: u64 :| k in t.Keys && IsLeast(k, t.Keys);
    i := KeyIndex(data, seen, k);
  }

  lemma KeyIndex(data: Data, seen: set<nat>, k: u64) returns (i: nat)
    requires k in Table(data, seen) && seen <= From(0, ChunkCount(data))
    ensures i in seen && i < ChunkCount(data) && k == ChunkStart(data, i)
  {
    i := k / MAX_READ_RES_CHUNK;
    ChunkStarts(data, i);
  }

  // ----- Once a chunk has come twice -----

  lemma AbsorbKnown(id: u32, data: Data, seen: set<nat>, received: nat, i: nat)
    requires i < ChunkCount(data)
    ensures Absorb(Assembly(Table(data, seen), received), Chunk(id, data, i))
         == Assembly(Table(data, seen + {i}), received + ChunkStart(data, i + 1) - ChunkStart(data, i))
  {
    TableAbsorbs(data, seen, i);
    StartsWithin(data, i);
  }

  /** Counting bytes twice, the loop may stop, but not with the data. */
  lemma {:induction false} NeverTheData(id: u32, data: Data, seen: set<nat>, received: nat, inbox: seq<Message>)
    requires OnlyChunks(id, data, inbox) && seen <= From(0, ChunkCount(data))
    requires received > BytesSeen(data, seen, ChunkCount(data))
    ensures Combine(Assembly(Table(data, seen), received), inbox) != Ready(data)
    decreases |inbox|
  {
    hide InOrder, Table, BytesSeen, ChunkStart, ChunkCount, Chunk, Absorb;
    if inbox != [] {
      OnlyTail(id, data, inbox);
      if inbox[0].ReadRes? {
        var i :| IsChunk(id, data, inbox[0], i);
        ChunkShape(id, data, i);
        AbsorbKnown(id, data, seen, received, i);
        StartsWithin(data, i);
        var received' := received + ChunkStart(data, i + 1) - ChunkStart(data, i);
        if i in seen {
          assert seen + {i} == seen;
        } else {
          BytesSeenGrows(data, seen, i, ChunkCount(data));
        }
        InOrderLength(data, seen + {i});
        NeverTheData(id, data, seen + {i}, received', inbox[1..]);
      } else if !inbox[0].Error? {
        NeverTheData(id, data, seen, received, inbox[1..]);
      }
    }
  }

  lemma Doubled(id: u32, data: Data, seen: set<nat>, inbox: seq<Message>, i: nat)
    requires data != [] && OnlyChunks(id, data, inbox) && seen <= From(0, ChunkCount(data))
    requires inbox != [] && IsChunk(id, data, inbox[0], i) && i in seen
    ensures Combine(After(data, seen), inbox) != Ready(data)
  {
    ChunkShape(id, data, i);
    ChunkStarts(data, i);
    OnlyTail(id, data, inbox);
    hide InOrder, Table, BytesSeen, ChunkStart, ChunkCount, Chunk, Absorb, OnlyChunks;
    var n := BytesSeen(data, seen, ChunkCount(data));
    AbsorbKnown(id, data, seen, n, i);
    assert seen + {i} == seen;
    InOrderLength(data, seen);
    NeverTheData(id, data, seen, n + ChunkStart(data, i + 1) - ChunkStart(data, i), inbox[1..]);
  }

  lemma OnlyTail(id: u32, data: Data, inbox: seq<Message>)
    requires inbox != [] && OnlyChunks(id, data, inbox)
    ensures OnlyChunks(id, data, inbox[1..])
  {
    hide Chunk, ChunkCount;
    assert forall i | 0 <= i < |inbox[1..]| :: inbox[1..][i] == inbox[i + 1];
  }

  // ----- The exact condition -----

  lemma FirstRead(inbox: seq<Message>, n: nat)
    requires inbox != [] && n < |inbox|
    ensures Reads(inbox[..n + 1])
         == if inbox[0].ReadRes? then [inbox[0]] + Reads(inbox[1..][..n]) else Reads(inbox[1..][..n])
    ensures NoErrors(inbox[..n + 1]) <==> !inbox[0].Error? && NoErrors(inbox[1..][..n])
  {
    assert inbox[..n + 1][1..] == inbox[1..][..n];
    assert inbox[..n + 1] == [inbox[0]] + inbox[1..][..n];
  }

  /** The loop returns the data only at the end of a prefix with each missing chunk once. */
  lemma {:induction false} ReadyMeansOnce(id: u32, data: Data, seen: set<nat>, inbox: seq<Message>) returns (n: nat)
    requires data != [] && seen <= From(0, ChunkCount(data)) && !SeenAll(seen, ChunkCount(data))
    requires OnlyChunks(id, data, inbox) && Combine(After(data, seen), inbox) == Ready(data)
    ensures n <= |inbox| && NoErrors(inbox[..n])
    ensures multiset(Reads(inbox[..n])) == Missing(id, data, seen, ChunkCount(data))
    decreases |inbox|
  {
    hide InOrder, Table, BytesSeen, ChunkStart, ChunkCount, Chunk, Absorb, Missing, Reads, NoErrors;
    var count := ChunkCount(data);
    OnlyTail(id, data, inbox);
    if inbox[0].ReadRes? {
      var i :| IsChunk(id, data, inbox[0], i);
      if i in seen {
        Doubled(id, data, seen, inbox, i);
      }
      var seen' := seen + {i};
      AbsorbChunk(id, data, seen, i);
      ChunkShape(id, data, i);
      BytesSeenComplete(data, seen', count);
      TableEmpty(data);
      MissingDrops(id, data, seen, i, count);
      if SeenAll(seen', count) {
        n := 1;
        NothingMissing(id, data, seen', count);
        FirstRead(inbox, 0);
        NoneRead(inbox[1..]);
      } else {
        var rest := ReadyMeansOnce(id, data, seen', inbox[1..]);
        n := rest + 1;
        FirstRead(inbox, rest);
        assert multiset([inbox[0]] + Reads(inbox[1..][..rest])) == multiset{inbox[0]} + multiset(Reads(inbox[1..][..rest]));
      }
    } else {
      var rest := ReadyMeansOnce(id, data, seen, inbox[1..]);
      n := rest + 1;
      FirstRead(inbox, rest);
    }
  }

  lemma NoneRead(inbox: seq<Message>)
    ensures Reads(inbox[..0]) == [] && NoErrors(inbox[..0])
  {
  }

  lemma {:induction false} EmptyReadyMeansOnce(id: u32, inbox: seq<Message>) returns (n: nat)
    requires OnlyChunks(id, [], inbox) && Combine(NOTHING, inbox).Ready?
    ensures n <= |inbox| && EachOnce(id, [], inbox[..n])
    decreases |inbox|
  {
    assert forall i | 0 <= i < |inbox[1..]| :: inbox[1..][i] == inbox[i + 1];
    assert ChunksOf(id, []) == [Chunk(id, [], 0)];
    if inbox[0].ReadRes? {
      n := 1;
      FirstRead(inbox, 0);
      NoneRead(inbox[1..]);
      assert [inbox[0]] + Reads(inbox[1..][..0]) == [inbox[0]];
    } else {
      var rest := EmptyReadyMeansOnce(id, inbox[1..]);
      n := rest + 1;
      FirstRead(inbox, rest);
    }
  }

  lemma {:induction false} ReadyPersists(st: Assembly, a: seq<Message>, b: seq<Message>)
    requires Combine(st, a).Ready?
    ensures Combine(st, a + b) == Combine(st, a)
    decreases |a|
  {
    hide InOrder;
    var s := a + b;
    assert s[0] == a[0] && s[1..] == a[1..] + b;
    if a[0].ReadRes? {
      if Absorb(st, a[0]).received != a[0].totalLength {
        ReadyPersists(Absorb(st, a[0]), a[1..], b);
      }
    } else {
      ReadyPersists(st, a[1..], b);
    }
  }

  /** The exact condition. Given any chunks of the data, in any order, any number of times,
      with any other messages among them, the loop returns the data if and only if the
      messages up to some point bring each chunk exactly once, and no error. */
  lemma ReassemblyExact(id: u32, data: Data, inbox: seq<Message>)
    requires OnlyChunks(id, data, inbox)
    ensures Combine(NOTHING, inbox) == Ready(data) <==> exists n :: 0 <= n <= |inbox| && EachOnce(id, data, inbox[..n])
  {
    hide Combine, ChunksOf, OnlyChunks, NoErrors, Reads;
    if n :| 0 <= n <= |inbox| && EachOnce(id, data, inbox[..n]) {
      Reassembly(id, data, inbox[..n]);
      ReadyPersists(NOTHING, inbox[..n], inbox[n..]);
      assert inbox[..n] + inbox[n..] == inbox;
    }
    if Combine(NOTHING, inbox) == Ready(data) {
      var n: nat;
      if data == [] {
        n := EmptyReadyMeansOnce(id, inbox);
      } else {
        StartsEmpty(data);
        n := ReadyMeansOnce(id, data, {}, inbox);
        AllMissing(id, data, ChunkCount(data));
        assert ChunksOf(id, data)[..ChunkCount(data)] == ChunksOf(id, data);
      }
      assert EachOnce(id, data, inbox[..n]);
    }
  }

  // ----- Waiting for ever -----

  /** Once the count has overshot, no further chunk ends the wait. */
  lemma {:induction false} OvershotWaits(id: u32, data: Data, st: Assembly, inbox: seq<Message>)
    requires OnlyChunks(id, data, inbox) && NoErrors(inbox) && st.received > |data|
    ensures Combine(st, inbox) == Waiting
    decreases |inbox|
  {
    hide Chunk, InOrder;
    if inbox != [] {
      OnlyTail(id, data, inbox);
      assert inbox[0] in inbox && NoErrors(inbox[1..]);
      if inbox[0].ReadRes? {
        var i :| IsChunk(id, data, inbox[0], i);
        ChunkShape(id, data, i);
        OvershotWaits(id, data, Absorb(st, inbox[0]), inbox[1..]);
      } else {
        OvershotWaits(id, data, st, inbox[1..]);
      }
    }
  }

  /** So with two chunks of different lengths, the second doubled and then the first: every
      chunk has arrived, and whatever chunks follow, the caller waits for ever. */
  lemma DuplicateHangs(id: u32, data: Data, rest: seq<Message>)
    requires MAX_READ_RES_CHUNK < |data| < 2 * MAX_READ_RES_CHUNK
    requires OnlyChunks(id, data, rest) && NoErrors(rest)
    ensures Combine(NOTHING, [Chunk(id, data, 1), Chunk(id, data, 1), Chunk(id, data, 0)] + rest) == Waiting
  {
    hide InOrder;
    var first, second := Chunk(id, data, 0), Chunk(id, data, 1);
    assert |first.data| == MAX_READ_RES_CHUNK && |second.data| == |data| - MAX_READ_RES_CHUNK;
    var inbox := [second, second, first] + rest;
    var one := Absorb(NOTHING, second);
    var two := Absorb(one, second);
    var three := Absorb(two, first);
    assert inbox[1..] == [second, first] + rest;
    assert inbox[1..][1..] == [first] + rest;
    assert inbox[1..][1..][1..] == rest;
    assert Combine(NOTHING, inbox) == Combine(one, inbox[1..]) == Combine(two, inbox[1..][1..]) == Combine(three, rest);
    OvershotWaits(id, data, three, rest);
  }
}
