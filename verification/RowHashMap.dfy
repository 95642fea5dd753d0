/** The hash table of the hash join: a multimap from hash values to row pointers, kept as
    chains of entries in slices that double in size, and the rows it is built over. */
module RowHashMap {
  import opened ChunkRows
  import opened Expressions

  const INITIAL_ENTRY_SLICE_LEN := 64
  const MAX_ENTRY_SLICE_LEN := 8 * 1024

  datatype EntryAddr = EntryAddr(sliceIdx: nat, offset: nat)

  const NULL_ENTRY_ADDR := EntryAddr(0, 0)

  datatype Entry = Entry(ptr: RowPtr, next: EntryAddr)

  type Slices = seq<seq<Entry>>

  predicate Allocated(slices: Slices, a: EntryAddr) {
    a.sliceIdx < |slices| && a.offset < |slices[a.sliceIdx]|
  }

  function EntryAt(slices: Slices, a: EntryAddr): Entry
    requires Allocated(slices, a)
  {
    slices[a.sliceIdx][a.offset]
  }

  /** Entries are allocated in this order. */
  predicate Before(a: EntryAddr, b: EntryAddr) {
    a.sliceIdx < b.sliceIdx || (a.sliceIdx == b.sliceIdx && a.offset < b.offset)
  }

  /** Each entry leads to one that was allocated before it, or to none. */
  ghost predicate Linked(slices: Slices) {
    forall a :: Allocated(slices, a) && a != NULL_ENTRY_ADDR ==>
      var next := EntryAt(slices, a).next;
      next == NULL_ENTRY_ADDR || (Allocated(slices, next) && Before(next, a))
  }

  /** The addresses reached from 'a', the newest first. */
  ghost function Chain(slices: Slices, a: EntryAddr): seq<EntryAddr>
    requires Linked(slices) && (a == NULL_ENTRY_ADDR || Allocated(slices, a))
    decreases a.sliceIdx, a.offset
  {
    if a == NULL_ENTRY_ADDR then [] else [a] + Chain(slices, EntryAt(slices, a).next)
  }

  ghost predicate AllAllocated(slices: Slices, chain: seq<EntryAddr>) {
    forall k :: 0 <= k < |chain| ==> Allocated(slices, chain[k])
  }

  ghost function Pointers(slices: Slices, chain: seq<EntryAddr>): seq<RowPtr>
    requires AllAllocated(slices, chain)
  {
    seq(|chain|, k requires 0 <= k < |chain| => EntryAt(slices, chain[k]).ptr)
  }

  function Reversed<T>(s: seq<T>): seq<T> {
    seq(|s|, i requires 0 <= i < |s| => s[|s| - 1 - i])
  }

  /** A chain visits different entries, and never the reserved one. */
  lemma {:induction false} ChainDescends(slices: Slices, a: EntryAddr)
    requires Linked(slices) && (a == NULL_ENTRY_ADDR || Allocated(slices, a))
    ensures AllAllocated(slices, Chain(slices, a)) && NULL_ENTRY_ADDR !in Chain(slices, a)
    ensures forall i, j :: 0 <= i < j < |Chain(slices, a)| ==> Before(Chain(slices, a)[j], Chain(slices, a)[i])
    ensures a != NULL_ENTRY_ADDR ==> Chain(slices, a) != [] && Chain(slices, a)[0] == a
    decreases a.sliceIdx, a.offset
  {
    if a != NULL_ENTRY_ADDR {
      var next := EntryAt(slices, a).next;
      ChainDescends(slices, next);
      var rest := Chain(slices, next);
      forall j | 0 <= j < |rest| ensures Before(rest[j], a) {
        assert rest[0] == next;
        assert j > 0 ==> Before(rest[j], rest[0]);
      }
    }
  }

  // ---------- growing the store ----------

  /** What was allocated stays where it is. */
  ghost predicate Extends(slices: Slices, longer: Slices) {
    forall a :: Allocated(slices, a) ==> Allocated(longer, a) && EntryAt(longer, a) == EntryAt(slices, a)
  }

  lemma {:induction false} ChainStays(slices: Slices, longer: Slices, a: EntryAddr)
    requires Linked(slices) && Linked(longer) && Extends(slices, longer) &&
             (a == NULL_ENTRY_ADDR || Allocated(slices, a))
    ensures Chain(longer, a) == Chain(slices, a)
    ensures AllAllocated(slices, Chain(slices, a)) && AllAllocated(longer, Chain(slices, a))
    ensures Pointers(longer, Chain(slices, a)) == Pointers(slices, Chain(slices, a))
    decreases a.sliceIdx, a.offset
  {
    ChainDescends(slices, a);
    if a != NULL_ENTRY_ADDR { ChainStays(slices, longer, EntryAt(slices, a).next); }
  }

  /** All slices but the last are full, and each is twice as long as the one before up to the maximum. */
  ghost predicate Slab(slices: Slices, caps: seq<nat>) {
    && slices != [] && |caps| == |slices| && caps[0] == INITIAL_ENTRY_SLICE_LEN && slices[0] != []
    && (forall i ::
          0 < i < |caps| ==> caps[i] == if caps[i - 1] * 2 >= MAX_ENTRY_SLICE_LEN then MAX_ENTRY_SLICE_LEN
            else caps[i - 1] * 2)
    && (forall i :: 0 <= i < |slices| ==> |slices[i]| <= caps[i] && 0 < caps[i] <= MAX_ENTRY_SLICE_LEN)
    && (forall i :: 0 <= i < |slices| - 1 ==> |slices[i]| == caps[i])
  }

  /** Appends the entry, in a new slice when the last is full. */
  method PutEntry(slices: Slices, caps: seq<nat>, e: Entry) returns (slices': Slices, caps': seq<nat>, addr: EntryAddr)
    requires Slab(slices, caps)
    ensures Slab(slices', caps') && Extends(slices, slices')
    ensures addr != NULL_ENTRY_ADDR && !Allocated(slices, addr) && Allocated(slices', addr) &&
            EntryAt(slices', addr) == e
    ensures forall a :: Allocated(slices', a) ==> Allocated(slices, a) || a == addr
    ensures forall a :: Allocated(slices, a) ==> Before(a, addr)
  {
    slices', caps' := slices, caps;
    var sliceIdx := |slices| - 1;
    if |slices[sliceIdx]| == caps[sliceIdx] {
      var size := caps[sliceIdx] * 2;
      if size >= MAX_ENTRY_SLICE_LEN {
        size := MAX_ENTRY_SLICE_LEN;
      }
      slices', caps' := slices' + [[]], caps' + [size];
      sliceIdx := sliceIdx + 1;
    }
    addr := EntryAddr(sliceIdx, |slices'[sliceIdx]|);
    slices' := slices'[sliceIdx := slices'[sliceIdx] + [e]];
  }

  lemma PutLinks(slices: Slices, slices': Slices, addr: EntryAddr)
    requires Linked(slices) && Extends(slices, slices') && Allocated(slices', addr) && addr != NULL_ENTRY_ADDR
    requires forall a :: Allocated(slices', a) ==> Allocated(slices, a) || a == addr
    requires forall a :: Allocated(slices, a) ==> Before(a, addr)
    requires EntryAt(slices', addr).next == NULL_ENTRY_ADDR || Allocated(slices, EntryAt(slices', addr).next)
    ensures Linked(slices')
  {
  }

  // ---------- the multimap ----------

  /** Each key's chain, read backwards, is what was put under the key, in order. */
  ghost predicate Represents(slices: Slices, table: map<int, EntryAddr>, contents: map<int, seq<RowPtr>>) {
    && Linked(slices) && table.Keys == contents.Keys
    && forall k :: k in table ==> Stored(slices, table[k], contents[k])
  }

  ghost predicate Stored(slices: Slices, head: EntryAddr, ptrs: seq<RowPtr>)
    requires Linked(slices)
  {
    && head != NULL_ENTRY_ADDR && Allocated(slices, head)
    && AllAllocated(slices, Chain(slices, head)) && Reversed(Pointers(slices, Chain(slices, head))) == ptrs
  }

  /** Every entry belongs to one key, and the entries of a chain to the same one. */
  ghost predicate Owned(slices: Slices, table: map<int, EntryAddr>, owner: map<EntryAddr, int>) {
    && (forall a :: a in owner <==> Allocated(slices, a) && a != NULL_ENTRY_ADDR)
    && (forall a ::
          a in owner && EntryAt(slices, a).next != NULL_ENTRY_ADDR ==>
            EntryAt(slices, a).next in owner && owner[EntryAt(slices, a).next] == owner[a])
    && (forall k :: k in table ==> table[k] in owner && owner[table[k]] == k)
  }

  lemma {:induction false} ChainOwned(slices: Slices, table: map<int, EntryAddr>, owner: map<EntryAddr, int>,
                                      a: EntryAddr, i: nat)
    requires Linked(slices) && Owned(slices, table, owner) && a in owner && i < |Chain(slices, a)|
    ensures Chain(slices, a)[i] in owner && owner[Chain(slices, a)[i]] == owner[a]
    decreases a.sliceIdx, a.offset
  {
    if i > 0 { ChainOwned(slices, table, owner, EntryAt(slices, a).next, i - 1); }
  }

  /** The chains of two keys share no entry. */
  lemma ChainsDisjoint(slices: Slices, table: map<int, EntryAddr>, owner: map<EntryAddr, int>, k: int, l: int, i: nat,
                       j: nat)
    requires Linked(slices) && Owned(slices, table, owner) && k in table && l in table && k != l
    requires i < |Chain(slices, table[k])| && j < |Chain(slices, table[l])|
    ensures Chain(slices, table[k])[i] != Chain(slices, table[l])[j]
  {
    ChainOwned(slices, table, owner, table[k], i);
    ChainOwned(slices, table, owner, table[l], j);
  }

  function Under(contents: map<int, seq<RowPtr>>, k: int): seq<RowPtr> {
    if k in contents then contents[k] else []
  }

  lemma StoredStays(slices: Slices, slices': Slices, head: EntryAddr, ptrs: seq<RowPtr>)
    requires Linked(slices) && Linked(slices') && Extends(slices, slices') && Stored(slices, head, ptrs)
    ensures Stored(slices', head, ptrs) && head != NULL_ENTRY_ADDR
  {
    ChainStays(slices, slices', head);
    hide Linked, Chain;
  }

  lemma StoredPut(slices: Slices, addr: EntryAddr, ptrs: seq<RowPtr>)
    requires Linked(slices) && addr != NULL_ENTRY_ADDR && Allocated(slices, addr)
    requires var next := EntryAt(slices, addr).next;
             if next == NULL_ENTRY_ADDR then ptrs == [] else Stored(slices, next, ptrs)
    ensures Stored(slices, addr, ptrs + [EntryAt(slices, addr).ptr])
  {
    var e := EntryAt(slices, addr);
    LinkedNext(slices, addr);
    ChainDescends(slices, addr);
    ChainDescends(slices, e.next);
    var rest := Chain(slices, e.next);
    assert e.next == NULL_ENTRY_ADDR ==> rest == [];
    hide Linked, Chain;
    assert Chain(slices, addr) == [addr] + rest;
    assert Pointers(slices, [addr] + rest) == [e.ptr] + Pointers(slices, rest);
    ReversedPush(e.ptr, Pointers(slices, rest));
    assert Reversed(Pointers(slices, rest)) == ptrs;
  }

  lemma PutRepresents(slices: Slices, slices': Slices, table: map<int, EntryAddr>, contents: map<int, seq<RowPtr>>,
                      key: int, ptr: RowPtr, addr: EntryAddr)
    requires Represents(slices, table, contents) && Extends(slices, slices') && Linked(slices')
    requires addr != NULL_ENTRY_ADDR && Allocated(slices', addr)
    requires EntryAt(slices', addr) == Entry(ptr, if key in table then table[key] else NULL_ENTRY_ADDR)
    ensures Represents(slices', table[key := addr], contents[key := Under(contents, key) + [ptr]])
  {
    hide Linked, Extends, Stored, Chain, Allocated;
    forall k | k in table ensures table[k] != NULL_ENTRY_ADDR && Stored(slices', table[k], contents[k]) {
      StoredStays(slices, slices', table[k], contents[k]);
    }
    StoredPut(slices', addr, Under(contents, key));
  }

  lemma ReversedPush(p: RowPtr, ptrs: seq<RowPtr>)
    ensures Reversed([p] + ptrs) == Reversed(ptrs) + [p]
  {
  }

  class RowMap {
    var slices: Slices
    var caps: seq<nat>
    var hashTable: map<int, EntryAddr>
    var length: nat
    /** The pointers put under each hash value, in the order they were put. */
    ghost var contents: map<int, seq<RowPtr>>
    ghost var owner: map<EntryAddr, int>

    ghost predicate Valid()
      reads this
    {
      Slab(slices, caps) && Represents(slices, hashTable, contents) && Owned(slices, hashTable, owner) &&
      length == |owner|
    }

    constructor ()
      ensures Valid() && contents == map[] && length == 0
    {
      slices, caps := [[Entry(RowPtr(0, 0), NULL_ENTRY_ADDR)]], [INITIAL_ENTRY_SLICE_LEN];
      hashTable, length, contents, owner := map[], 0, map[], map[];
    }

    method Put(hashKey: int, rowPtr: RowPtr)
      requires Valid()
      modifies this
      ensures Valid() && length == old(length) + 1
      ensures contents == old(contents)[hashKey := Under(old(contents), hashKey) + [rowPtr]]
      ensures Extends(old(slices), slices)
    {
      hide Linked, Slab, Extends, Chain, Owned, Stored;
      HeadAllocated(slices, hashTable, contents, hashKey);
      var oldEntryAddr := if hashKey in hashTable then hashTable[hashKey] else NULL_ENTRY_ADDR;
      var slices', caps', newEntryAddr := PutEntry(slices, caps, Entry(rowPtr, oldEntryAddr));
      PutLinks(slices, slices', newEntryAddr);
      PutRepresents(slices, slices', hashTable, contents, hashKey, rowPtr, newEntryAddr);
      PutOwned(slices, slices', hashTable, owner, hashKey, newEntryAddr);
      slices, caps := slices', caps';
      contents := contents[hashKey := Under(contents, hashKey) + [rowPtr]];
      owner := owner[newEntryAddr := hashKey];
      hashTable := hashTable[hashKey := newEntryAddr];
      length := length + 1;
    }

    /** Follows the chain and turns it round. */
    method Get(hashKey: int) returns (rowPtrs: seq<RowPtr>)
      requires Valid()
      ensures rowPtrs == Under(contents, hashKey)
    {
      hide Linked, Slab, Owned;
      rowPtrs := [];
      var addr := if hashKey in hashTable then hashTable[hashKey] else NULL_ENTRY_ADDR;
      ghost var chain := Chain(slices, addr);
      ChainDescends(slices, addr);
      ghost var all := Pointers(slices, chain);
      assert Under(contents, hashKey) == Reversed(all);
      while addr != NULL_ENTRY_ADDR
        invariant addr == NULL_ENTRY_ADDR || Allocated(slices, addr)
        invariant |rowPtrs| <= |chain| && rowPtrs == all[..|rowPtrs|] && Chain(slices, addr) == chain[|rowPtrs|..]
        decreases |chain| - |rowPtrs|
      {
        LinkedNext(slices, addr);
        var e := slices[addr.sliceIdx][addr.offset];
        assert chain[|rowPtrs|] == addr && all[|rowPtrs|] == e.ptr;
        rowPtrs := rowPtrs + [e.ptr];
        addr := e.next;
      }
      assert rowPtrs == all;
      rowPtrs := ReverseInPlace(rowPtrs);
    }
  }

  lemma HeadAllocated(slices: Slices, table: map<int, EntryAddr>, contents: map<int, seq<RowPtr>>, key: int)
    requires Represents(slices, table, contents)
    ensures Linked(slices) && (key in table ==> Allocated(slices, table[key]))
  {
    hide Linked;
  }

  lemma LinkedNext(slices: Slices, a: EntryAddr)
    requires Linked(slices) && Allocated(slices, a) && a != NULL_ENTRY_ADDR
    ensures var next := EntryAt(slices, a).next; next == NULL_ENTRY_ADDR || Allocated(slices, next)
    ensures Chain(slices, a) != [] && Chain(slices, a)[0] == a &&
            Chain(slices, a)[1..] == Chain(slices, EntryAt(slices, a).next)
  {
  }

  lemma PutOwned(slices: Slices, slices': Slices, table: map<int, EntryAddr>, owner: map<EntryAddr, int>, key: int,
                 addr: EntryAddr)
    requires Owned(slices, table, owner) && Extends(slices, slices') && !Allocated(slices, addr) &&
             Allocated(slices', addr)
    requires addr != NULL_ENTRY_ADDR && EntryAt(slices', addr).next == if key in table then table[key]
        else NULL_ENTRY_ADDR
    requires forall a :: Allocated(slices', a) ==> Allocated(slices, a) || a == addr
    ensures Owned(slices', table[key := addr], owner[addr := key]) && |owner[addr := key]| == |owner| + 1
  {
    hide Allocated;
    assert addr !in owner;
    assert owner[addr := key].Keys == owner.Keys + {addr};
    forall a | a in owner ensures Allocated(slices', a) && EntryAt(slices', a) == EntryAt(slices, a) {
    }
    hide Extends;
  }

  /** Swaps the ends inwards. */
  method ReverseInPlace(ptrs: seq<RowPtr>) returns (r: seq<RowPtr>)
    ensures r == Reversed(ptrs)
  {
    r := ptrs;
    var n := |ptrs|;
    for i := 0 to n / 2
      invariant |r| == n
      invariant forall k :: 0 <= k < i ==> r[k] == ptrs[n - 1 - k]
      invariant forall k :: i <= k < n - i ==> r[k] == ptrs[k]
      invariant forall k :: n - i <= k < n ==> r[k] == ptrs[n - 1 - k]
    {
      var j := n - 1 - i;
      assert r[i] == ptrs[i] && r[j] == ptrs[j];
      r := r[i := r[j]][j := r[i]];
    }
  }

  // ---------- the build side of the join ----------

  /** Pointers to the rows of chunk 'c' without a NULL key that hash to 'h'. */
  function ChunkPtrs(hash: seq<Value> -> int, rows: seq<KeyedRow>, c: nat, h: int): seq<RowPtr> {
    if rows == [] then []
    else
      var last := rows[|rows| - 1];
      ChunkPtrs(hash, rows[..|rows| - 1], c, h) + if !HasNull(last.key) && hash(last.key) == h
        then [RowPtr(c, |rows| - 1)] else []
  }

  function ListPtrs(hash: seq<Value> -> int, chunks: seq<seq<KeyedRow>>, h: int): seq<RowPtr> {
    if chunks == [] then []
    else ListPtrs(hash, chunks[..|chunks| - 1], h) + ChunkPtrs(hash, chunks[|chunks| - 1], |chunks| - 1, h)
  }

  /** The build rows without a NULL key that hash to 'h' and equal the probe key, in order. */
  function Matching(hash: seq<Value> -> int, eq: (seq<Value>, seq<Value>) -> bool, rows: seq<KeyedRow>, h: int,
                    probe: seq<Value>): seq<KeyedRow> {
    if rows == [] then []
    else
      var last := rows[|rows| - 1];
      Matching(hash, eq, rows[..|rows| - 1], h, probe) + if !HasNull(last.key) && hash(last.key) == h &&
      eq(last.key, probe) then [last] else []
  }

  class HashRowContainer {
    const hash: seq<Value> -> int
    const eq: (seq<Value>, seq<Value>) -> bool
    var records: seq<seq<KeyedRow>>
    const table: RowMap

    ghost predicate Valid()
      reads this, table
    {
      table.Valid() && forall h :: Under(table.contents, h) == ListPtrs(hash, records, h)
    }

    constructor (hash: seq<Value> -> int, eq: (seq<Value>, seq<Value>) -> bool)
      ensures Valid() && fresh(table) && records == [] && this.hash == hash && this.eq == eq
    {
      this.hash, this.eq, records := hash, eq, [];
      table := new RowMap();
    }

    method PutChunk(chk: seq<KeyedRow>)
      requires Valid()
      modifies this`records, table
      ensures Valid() && records == old(records) + [chk]
    {
      hide HasNull, ListPtrs, ChunkPtrs, Indexed, RowMap.Valid;
      var chkIdx := |records|;
      ghost var before := records;
      records := records + [chk];
      BeginIndex(table.contents, hash, before, chk);
      for i := 0 to |chk|
        invariant table.Valid() && records == before + [chk] && Indexed(table.contents, hash, before, chk[..i])
      {
        IndexRow(table.contents, hash, before, chk, i);
        if HasNull(chk[i].key) {
          continue;
        }
        var key := hash(chk[i].key);
        table.Put(key, RowPtr(chkIdx, i));
      }
      assert chk[..|chk|] == chk;
      EndIndex(table.contents, hash, before, chk);
    }

    /** Exactly the build rows that the probe key matches, in build order; the probe's hash value
        takes no part when equal keys hash equally. */
    method GetMatchedRows(probeKey: int, probe: seq<Value>) returns (matched: seq<KeyedRow>)
      requires Valid()
      ensures matched == Matching(hash, eq, Flatten(records), probeKey, probe)
      ensures forall r :: r in matched <==>
                r in Flatten(records) && Null !in r.key && hash(r.key) == probeKey && eq(r.key, probe)
      ensures (forall key :: eq(key, probe) ==> hash(key) == probeKey) ==>
          matched == EqualRows(eq, Flatten(records), probe)
    {
      hide HasNull, ListPtrs, Matching, EqualRows, RowMap.Valid, Flatten, Select;
      var innerPtrs := table.Get(probeKey);
      ListPtrsMeaning(hash, eq, records, probeKey, probe);
      MatchingIsEqual(hash, eq, Flatten(records), probeKey, probe);
      MatchingMembers(hash, eq, Flatten(records), probeKey, probe);
      matched := [];
      SelectStep(eq, records, innerPtrs, 0, probe);
      for i := 0 to |innerPtrs|
        invariant matched == Select(eq, records, innerPtrs[..i], probe)
      {
        SelectStep(eq, records, innerPtrs, i, probe);
        var matchedRow := RowAt(records, innerPtrs[i]);
        if !eq(matchedRow.key, probe) {
          continue;
        }
        matched := matched + [matchedRow];
      }
      assert innerPtrs[..|innerPtrs|] == innerPtrs;
    }
  }

  /** The table holds the rows of 'chunks' and of a further chunk. */
  ghost predicate Indexed(contents: map<int, seq<RowPtr>>, hash: seq<Value> -> int, chunks: seq<seq<KeyedRow>>,
                          rows: seq<KeyedRow>) {
    forall h :: Under(contents, h) == ListPtrs(hash, chunks, h) + ChunkPtrs(hash, rows, |chunks|, h)
  }

  lemma BeginIndex(contents: map<int, seq<RowPtr>>, hash: seq<Value> -> int, chunks: seq<seq<KeyedRow>>,
                   chk: seq<KeyedRow>)
    requires forall h :: Under(contents, h) == ListPtrs(hash, chunks, h)
    ensures Indexed(contents, hash, chunks, chk[..0])
  {
    forall h ensures ChunkPtrs(hash, chk[..0], |chunks|, h) == [] {
    }
  }

  lemma IndexRow(contents: map<int, seq<RowPtr>>, hash: seq<Value> -> int, chunks: seq<seq<KeyedRow>>,
                 chk: seq<KeyedRow>, i: nat)
    requires i < |chk| && Indexed(contents, hash, chunks, chk[..i])
    ensures HasNull(chk[i].key) ==> Indexed(contents, hash, chunks, chk[..i + 1])
    ensures !HasNull(chk[i].key) ==>
              var h := hash(chk[i].key);
              Indexed(contents[h := Under(contents, h) + [RowPtr(|chunks|, i)]], hash, chunks, chk[..i + 1])
  {
    hide HasNull, ListPtrs, ChunkPtrs;
    var h0, c := hash(chk[i].key), |chunks|;
    var more := if HasNull(chk[i].key) then contents else contents[h0 := Under(contents, h0) + [RowPtr(c, i)]];
    forall h ensures Under(more, h) == ListPtrs(hash, chunks, h) + ChunkPtrs(hash, chk[..i + 1], c, h) {
      ChunkPtrsStep(hash, chk, i, c, h);
      assert Under(contents, h) == ListPtrs(hash, chunks, h) + ChunkPtrs(hash, chk[..i], c, h);
    }
  }

  lemma ChunkPtrsStep(hash: seq<Value> -> int, chk: seq<KeyedRow>, i: nat, c: nat, h: int)
    requires i < |chk|
    ensures ChunkPtrs(hash, chk[..i + 1], c, h) ==
            ChunkPtrs(hash, chk[..i], c, h) + if !HasNull(chk[i].key) && hash(chk[i].key) == h then [RowPtr(c, i)]
              else []
  {
    assert chk[..i + 1][..i] == chk[..i];
  }

  lemma EndIndex(contents: map<int, seq<RowPtr>>, hash: seq<Value> -> int, chunks: seq<seq<KeyedRow>>,
                 chk: seq<KeyedRow>)
    requires Indexed(contents, hash, chunks, chk)
    ensures forall h :: Under(contents, h) == ListPtrs(hash, chunks + [chk], h)
  {
    hide ChunkPtrs;
    assert (chunks + [chk])[..|chunks|] == chunks;
  }

  /** The pointed-to rows whose key equals the probe's. */
  ghost function Select(eq: (seq<Value>, seq<Value>) -> bool, chunks: seq<seq<KeyedRow>>, ptrs: seq<RowPtr>,
                        probe: seq<Value>): seq<KeyedRow>
    requires AllInRange(chunks, ptrs)
  {
    if ptrs == [] then []
    else
      var last := RowAt(chunks, ptrs[|ptrs| - 1]);
      Select(eq, chunks, ptrs[..|ptrs| - 1], probe) + if eq(last.key, probe) then [last] else []
  }

  lemma SelectStep(eq: (seq<Value>, seq<Value>) -> bool, chunks: seq<seq<KeyedRow>>, ptrs: seq<RowPtr>, i: nat,
                   probe: seq<Value>)
    requires AllInRange(chunks, ptrs) && i <= |ptrs|
    ensures i == 0 ==> Select(eq, chunks, ptrs[..i], probe) == []
    ensures i < |ptrs| ==>
              Select(eq, chunks, ptrs[..i + 1], probe)
              == Select(eq, chunks, ptrs[..i], probe)
              + (if eq(RowAt(chunks, ptrs[i]).key, probe) then [RowAt(chunks, ptrs[i])] else [])
  {
    if i < |ptrs| { assert ptrs[..i + 1][..i] == ptrs[..i]; }
  }

  function EqualRows(eq: (seq<Value>, seq<Value>) -> bool, rows: seq<KeyedRow>, probe: seq<Value>): seq<KeyedRow> {
    if rows == [] then []
    else
      var last := rows[|rows| - 1];
      EqualRows(eq, rows[..|rows| - 1], probe) + if !HasNull(last.key) && eq(last.key, probe) then [last] else []
  }

  lemma {:induction false} MatchingMembers(hash: seq<Value> -> int, eq: (seq<Value>, seq<Value>) -> bool,
                                           rows: seq<KeyedRow>, h: int, probe: seq<Value>)
    ensures forall r :: r in Matching(hash, eq, rows, h, probe) <==>
              r in rows && Null !in r.key && hash(r.key) == h && eq(r.key, probe)
  {
    if rows != [] {
      var n := |rows| - 1;
      MatchingMembers(hash, eq, rows[..n], h, probe);
      assert rows == rows[..n] + [rows[n]];
    }
  }

  lemma {:induction false} MatchingIsEqual(hash: seq<Value> -> int, eq: (seq<Value>, seq<Value>) -> bool,
                                           rows: seq<KeyedRow>, h: int, probe: seq<Value>)
    ensures (forall key :: eq(key, probe) ==> hash(key) == h) ==>
        Matching(hash, eq, rows, h, probe) == EqualRows(eq, rows, probe)
  {
    if rows != [] { MatchingIsEqual(hash, eq, rows[..|rows| - 1], h, probe); }
  }

  lemma {:induction false} MatchingAppend(hash: seq<Value> -> int, eq: (seq<Value>, seq<Value>) -> bool,
                                          a: seq<KeyedRow>, b: seq<KeyedRow>, h: int, probe: seq<Value>)
    ensures Matching(hash, eq, a + b, h, probe) == Matching(hash, eq, a, h, probe) + Matching(hash, eq, b, h, probe)
  {
    if b == [] {
      assert a + b == a;
    } else {
      assert (a + b)[..|a + b| - 1] == a + b[..|b| - 1];
      MatchingAppend(hash, eq, a, b[..|b| - 1], h, probe);
    }
  }

  lemma {:induction false} SelectAppend(eq: (seq<Value>, seq<Value>) -> bool, chunks: seq<seq<KeyedRow>>,
                                        a: seq<RowPtr>, b: seq<RowPtr>, probe: seq<Value>)
    requires AllInRange(chunks, a) && AllInRange(chunks, b)
    ensures AllInRange(chunks, a + b) &&
            Select(eq, chunks, a + b, probe) == Select(eq, chunks, a, probe) + Select(eq, chunks, b, probe)
  {
    if b == [] {
      assert a + b == a;
    } else {
      assert (a + b)[..|a + b| - 1] == a + b[..|b| - 1];
      SelectAppend(eq, chunks, a, b[..|b| - 1], probe);
    }
  }

  lemma {:induction false} SelectStays(eq: (seq<Value>, seq<Value>) -> bool, chunks: seq<seq<KeyedRow>>,
                                       last: seq<KeyedRow>, ptrs: seq<RowPtr>, probe: seq<Value>)
    requires AllInRange(chunks, ptrs)
    ensures AllInRange(chunks + [last], ptrs) &&
            Select(eq, chunks + [last], ptrs, probe) == Select(eq, chunks, ptrs, probe)
  {
    if ptrs != [] { SelectStays(eq, chunks, last, ptrs[..|ptrs| - 1], probe); }
  }

  lemma {:induction false} ChunkPtrsMeaning(hash: seq<Value> -> int, eq: (seq<Value>, seq<Value>) -> bool,
                                            chunks: seq<seq<KeyedRow>>, c: nat, n: nat, h: int, probe: seq<Value>)
    requires c < |chunks| && n <= |chunks[c]|
    ensures AllInRange(chunks, ChunkPtrs(hash, chunks[c][..n], c, h))
    ensures Select(eq, chunks, ChunkPtrs(hash, chunks[c][..n], c, h), probe)
            == Matching(hash, eq, chunks[c][..n], h, probe)
  {
    if n > 0 {
      ChunkPtrsMeaning(hash, eq, chunks, c, n - 1, h, probe);
      assert chunks[c][..n][..n - 1] == chunks[c][..n - 1];
      var init := ChunkPtrs(hash, chunks[c][..n - 1], c, h);
      assert init + [] == init && (init + [RowPtr(c, n - 1)])[..|init|] == init;
    }
  }

  /** The pointers stored under a hash value lead to the matching rows of the list, in order. */
  lemma {:induction false} ListPtrsMeaning(hash: seq<Value> -> int, eq: (seq<Value>, seq<Value>) -> bool,
                                           chunks: seq<seq<KeyedRow>>, h: int, probe: seq<Value>)
    ensures AllInRange(chunks, ListPtrs(hash, chunks, h))
    ensures Select(eq, chunks, ListPtrs(hash, chunks, h), probe) == Matching(hash, eq, Flatten(chunks), h, probe)
  {
    if chunks != [] {
      var n := |chunks| - 1;
      var init, last := chunks[..n], chunks[n];
      assert chunks == init + [last] && last[..|last|] == last;
      ListPtrsMeaning(hash, eq, init, h, probe);
      SelectStays(eq, init, last, ListPtrs(hash, init, h), probe);
      ChunkPtrsMeaning(hash, eq, chunks, n, |last|, h, probe);
      SelectAppend(eq, chunks, ListPtrs(hash, init, h), ChunkPtrs(hash, last, n, h), probe);
      FlattenAppend(init, [last]);
      MatchingAppend(hash, eq, Flatten(init), last, h, probe);
    }
  }
}
