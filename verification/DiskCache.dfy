/** DiskCache of webrtc/base/diskcache.cc: entries that are locked for writing or open for reading,
    and the sizes it keeps of them. */
module DiskCaching {

  datatype LockState = LS_UNLOCKED | LS_LOCKED | LS_UNLOCKING

  datatype Entry = Entry(lock_state: LockState, accessors: nat, size: nat, streams: nat)

  /** A DiskCacheAdapter: an open file of an entry, handed out by WriteResource or ReadResource. */
  datatype Adapter = Adapter(id: string, index: nat, writing: bool)

  type Disk = map<(string, nat), nat>

  // ----- Counting adapters and adding sizes

  function Accessors(open: seq<Adapter>, id: string): nat {
    if open == [] then 0 else Accessors(open[1..], id) + (if open[0].id == id then 1 else 0)
  }

  function Without(open: seq<Adapter>, k: nat): seq<Adapter>
    requires k < |open|
  {
    open[..k] + open[k + 1..]
  }

  lemma {:induction false} AccessorsSplit(a: seq<Adapter>, b: seq<Adapter>, id: string)
    ensures Accessors(a + b, id) == Accessors(a, id) + Accessors(b, id)
  {
    if a == [] {
      assert a + b == b;
    } else {
      assert (a + b)[1..] == a[1..] + b;
      AccessorsSplit(a[1..], b, id);
    }
  }

  lemma AccessorsWithout(open: seq<Adapter>, k: nat, id: string)
    requires k < |open|
    ensures Accessors(open, id) == Accessors(Without(open, k), id) + (if open[k].id == id then 1 else 0)
  {
    assert open == open[..k] + ([open[k]] + open[k + 1..]);
    AccessorsSplit(open[..k], [open[k]] + open[k + 1..], id);
    AccessorsSplit([open[k]], open[k + 1..], id);
    AccessorsSplit(open[..k], open[k + 1..], id);
    assert [open[k]][1..] == [];
  }

  lemma {:induction false} NoAccessors(open: seq<Adapter>, id: string)
    ensures Accessors(open, id) == 0 <==> forall a :: a in open ==> a.id != id
  {
    if open != [] {
      assert forall a :: a in open <==> a == open[0] || a in open[1..];
      NoAccessors(open[1..], id);
    }
  }

  predicate WriterOpen(open: seq<Adapter>, id: string, index: nat) {
    Adapter(id, index, true) in open
  }

  /** What a stream counts for: its size on disk, unless it is being written. */
  function Stored(disk: Disk, open: seq<Adapter>, id: string, index: nat): nat {
    if WriterOpen(open, id, index) || (id, index) !in disk then 0 else disk[(id, index)]
  }

  function StoredBelow(disk: Disk, open: seq<Adapter>, id: string, n: nat): nat {
    if n == 0 then 0 else StoredBelow(disk, open, id, n - 1) + Stored(disk, open, id, n - 1)
  }

  lemma {:induction false} StoredSame(d: Disk, e: Disk, o: seq<Adapter>, p: seq<Adapter>, id: string, n: nat)
    requires forall i :: 0 <= i < n ==> Stored(d, o, id, i) == Stored(e, p, id, i)
    ensures StoredBelow(d, o, id, n) == StoredBelow(e, p, id, n)
  {
    if n > 0 {
      StoredSame(d, e, o, p, id, n - 1);
    }
  }

  lemma {:induction false} StoredChanges(d: Disk, e: Disk, o: seq<Adapter>, p: seq<Adapter>, id: string, n: nat, j: nat)
    requires j < n && forall i :: 0 <= i < n && i != j ==> Stored(d, o, id, i) == Stored(e, p, id, i)
    ensures StoredBelow(e, p, id, n) + Stored(d, o, id, j) == StoredBelow(d, o, id, n) + Stored(e, p, id, j)
  {
    if n - 1 == j {
      StoredSame(d, e, o, p, id, n - 1);
    } else {
      StoredChanges(d, e, o, p, id, n - 1, j);
    }
  }

  lemma {:induction false} StoredExtends(d: Disk, o: seq<Adapter>, id: string, m: nat, n: nat)
    requires m <= n && forall i :: m <= i < n ==> Stored(d, o, id, i) == 0
    ensures StoredBelow(d, o, id, n) == StoredBelow(d, o, id, m)
    decreases n
  {
    if m < n {
      StoredExtends(d, o, id, m, n - 1);
    }
  }

  ghost function TotalSize(m: map<string, Entry>): nat
    decreases |m|
  {
    if m == map[] then 0
    else
      var id :| id in m;
      m[id].size + TotalSize(m - {id})
  }

  lemma {:induction false} TotalSizeOf(m: map<string, Entry>, id: string)
    requires id in m
    ensures TotalSize(m) == m[id].size + TotalSize(m - {id})
    decreases |m|
  {
    var first :| first in m && TotalSize(m) == m[first].size + TotalSize(m - {first});
    if first != id {
      TotalSizeOf(m - {first}, id);
      TotalSizeOf(m - {id}, first);
      assert m - {first} - {id} == m - {id} - {first};
    }
  }

  lemma TotalSizeUpdate(m: map<string, Entry>, id: string, e: Entry)
    ensures TotalSize(m[id := e]) == e.size + (if id in m then TotalSize(m) - m[id].size else TotalSize(m))
  {
    var n := m[id := e];
    TotalSizeOf(n, id);
    if id in m {
      TotalSizeOf(m, id);
      assert n - {id} == m - {id};
    } else {
      assert n - {id} == m;
    }
  }

  // ----- What holds in every run

  /** Reader/writer exclusion, and the counts of open adapters. */
  ghost predicate Locking(m: map<string, Entry>, open: seq<Adapter>, totalAccessors: nat) {
    && totalAccessors == |open|
    && (forall a :: a in open ==> a.id in m)
    && (forall id :: id in m ==> m[id].accessors == Accessors(open, id))
    && (forall a :: a in open ==> a.writing == !m[a.id].lock_state.LS_UNLOCKED?)
    && (forall id :: id in m && m[id].lock_state.LS_UNLOCKING? ==> m[id].accessors > 0)
  }

  ghost predicate OneWriter(open: seq<Adapter>) {
    forall j, k :: 0 <= j < k < |open| && open[j].writing && open[k].writing ==>
      open[j].id != open[k].id || open[j].index != open[k].index
  }

  /** Sizes: an entry counts its streams that are not being written, and the total counts the entries. */
  ghost predicate Accounting(m: map<string, Entry>, disk: Disk, open: seq<Adapter>, total: nat) {
    && total == TotalSize(m)
    && (forall id :: id in m ==> m[id].size == StoredBelow(disk, open, id, m[id].streams))
    && (forall f :: f in disk ==> f.0 in m && f.1 < m[f.0].streams)
    && (forall a :: a in open && a.writing ==> a.id in m && a.index < m[a.id].streams)
    && OneWriter(open)
  }

  predicate Deletable(m: map<string, Entry>, id: string) {
    id in m && m[id].lock_state.LS_UNLOCKED? && m[id].accessors == 0
  }

  // ----- Opening a writer

  function WithWriter(e: Entry, index: nat, previous: nat): Entry {
    e.(streams := if e.streams < index + 1 then index + 1 else e.streams,
       size := if e.size < previous then 0 else e.size - previous, accessors := e.accessors + 1)
  }

  /** The entry without one adapter, of a stream with this size on disk. */
  function Released(e: Entry, size: nat): Entry
    requires e.accessors > 0
  {
    e.(accessors := e.accessors - 1, size := if e.lock_state.LS_UNLOCKED? then e.size else e.size + size,
       lock_state := if e.lock_state.LS_UNLOCKING? && e.accessors == 1 then LS_UNLOCKED else e.lock_state)
  }

  function SizeOnDisk(disk: Disk, id: string, index: nat): nat {
    if (id, index) in disk then disk[(id, index)] else 0
  }

  lemma StoredWithWriter(e: Entry, disk: Disk, open: seq<Adapter>, id: string, index: nat)
    requires e.size == StoredBelow(disk, open, id, e.streams) && !WriterOpen(open, id, index)
    requires forall f :: f in disk && f.0 == id ==> f.1 < e.streams
    ensures SizeOnDisk(disk, id, index) <= e.size
    ensures var n := WithWriter(e, index, SizeOnDisk(disk, id, index));
            n.size == StoredBelow(disk[(id, index) := 0], open + [Adapter(id, index, true)], id, n.streams)
  {
    var e2, d2, o2 := WithWriter(e, index, 0), disk[(id, index) := 0], open + [Adapter(id, index, true)];
    forall i | e.streams <= i < e2.streams ensures Stored(disk, open, id, i) == 0 {
      assert (id, i) !in disk;
    }
    StoredExtends(disk, open, id, e.streams, e2.streams);
    forall i | 0 <= i < e2.streams && i != index ensures Stored(disk, open, id, i) == Stored(d2, o2, id, i) {
      assert WriterOpen(open, id, i) == WriterOpen(o2, id, i);
    }
    assert WriterOpen(o2, id, index);
    StoredChanges(disk, d2, open, o2, id, e2.streams, index);
  }

  lemma WithWriterMeans(e: Entry, index: nat, previous: nat)
    ensures var n := WithWriter(e, index, previous);
            && n.streams == (if e.streams < index + 1 then index + 1 else e.streams)
            && (previous <= e.size ==> n.size == e.size - previous)
  {
  }

  /** Opening a writer takes the size of its stream out of the entry and out of the total. */
  lemma WriterKeepsAccounting(m: map<string, Entry>, disk: Disk, open: seq<Adapter>, total: nat, id: string, index: nat)
    requires Accounting(m, disk, open, total) && id in m && !WriterOpen(open, id, index)
    ensures var previous := SizeOnDisk(disk, id, index);
            && previous <= m[id].size && previous <= total
            && Accounting(m[id := WithWriter(m[id], index, previous)], disk[(id, index) := 0],
                          open + [Adapter(id, index, true)], total - previous)
  {
    hide StoredBelow, TotalSize, WithWriter;
    var previous := SizeOnDisk(disk, id, index);
    var e := WithWriter(m[id], index, previous);
    assert e.streams == (if m[id].streams < index + 1 then index + 1 else m[id].streams) && e.size == m[id].size - previous by {
      StoredWithWriter(m[id], disk, open, id, index);
      WithWriterMeans(m[id], index, previous);
    }
    var m2, d2, o2 := m[id := e], disk[(id, index) := 0], open + [Adapter(id, index, true)];
    StoredWithWriter(m[id], disk, open, id, index);
    TotalSizeUpdate(m, id, e);
    TotalSizeOf(m, id);
    forall x | x in m && x != id ensures m[x].size == StoredBelow(d2, o2, x, m[x].streams) {
      forall i | 0 <= i < m[x].streams ensures Stored(disk, open, x, i) == Stored(d2, o2, x, i) {
        assert WriterOpen(open, x, i) == WriterOpen(o2, x, i);
      }
      StoredSame(disk, d2, open, o2, x, m[x].streams);
    }
    OneMoreWriter(open, id, index);
  }

  lemma OneMoreWriter(open: seq<Adapter>, id: string, index: nat)
    requires OneWriter(open) && !WriterOpen(open, id, index)
    ensures OneWriter(open + [Adapter(id, index, true)])
  {
    var o := open + [Adapter(id, index, true)];
    forall j, k | 0 <= j < k < |o| && o[j].writing && o[k].writing
      ensures o[j].id != o[k].id || o[j].index != o[k].index
    {
      assert o[j] in open;
    }
  }

  // ----- Closing a writer

  lemma StoredWithoutWriter(disk: Disk, open: seq<Adapter>, k: nat, id: string, n: nat)
    requires k < |open| && open[k].writing && OneWriter(open) && open[k].index < n
    ensures StoredBelow(disk, Without(open, k), id, n) ==
            StoredBelow(disk, open, id, n) + (if open[k].id == id then SizeOnDisk(disk, id, open[k].index) else 0)
  {
    var o2, a := Without(open, k), open[k];
    assert forall b :: b in open <==> b == a || b in o2 by {
      assert open == open[..k] + [a] + open[k + 1..];
    }
    if a.id == id {
      forall i | 0 <= i < n && i != a.index ensures Stored(disk, open, id, i) == Stored(disk, o2, id, i) {
        assert WriterOpen(open, id, i) == WriterOpen(o2, id, i);
      }
      assert a == Adapter(id, a.index, true);
      assert WriterOpen(open, id, a.index);
      assert !WriterOpen(o2, id, a.index);
      StoredChanges(disk, disk, open, o2, id, n, a.index);
    } else {
      StoredSame(disk, disk, open, o2, id, n);
    }
  }

  lemma StoredWithoutOther(disk: Disk, open: seq<Adapter>, k: nat, id: string, n: nat)
    requires k < |open| && (!open[k].writing || open[k].id != id)
    ensures StoredBelow(disk, Without(open, k), id, n) == StoredBelow(disk, open, id, n)
  {
    assert open == open[..k] + [open[k]] + open[k + 1..];
    forall i | 0 <= i < n ensures Stored(disk, open, id, i) == Stored(disk, Without(open, k), id, i) {
      assert WriterOpen(open, id, i) == WriterOpen(Without(open, k), id, i);
    }
    StoredSame(disk, disk, open, Without(open, k), id, n);
  }

  lemma OneWriterLess(open: seq<Adapter>, k: nat)
    requires k < |open| && OneWriter(open)
    ensures OneWriter(Without(open, k)) && forall a :: a in Without(open, k) ==> a in open
  {
    var o := Without(open, k);
    forall i, j | 0 <= i < j < |o| && o[i].writing && o[j].writing
      ensures o[i].id != o[j].id || o[i].index != o[j].index
    {
      var i2, j2 := if i < k then i else i + 1, if j < k then j else j + 1;
      assert o[i] == open[i2] && o[j] == open[j2];
    }
  }

  /** Closing an adapter puts the size of its stream back if it was being written. */
  lemma ReleaseKeepsAccounting(m: map<string, Entry>, disk: Disk, open: seq<Adapter>, total: nat, k: nat, e: Entry)
    requires Accounting(m, disk, open, total) && k < |open| && open[k].id in m
    requires e.streams == m[open[k].id].streams
    requires e.size == m[open[k].id].size + (if open[k].writing then SizeOnDisk(disk, open[k].id, open[k].index) else 0)
    ensures Accounting(m[open[k].id := e], disk, Without(open, k), total + e.size - m[open[k].id].size)
  {
    var id := open[k].id;
    TotalSizeUpdate(m, id, e);
    TotalSizeOf(m, id);
    OneWriterLess(open, k);
    assert open[k] in open;
    forall x | x in m && x != id
      ensures m[x].size == StoredBelow(disk, Without(open, k), x, m[x].streams)
    {
      StoredWithoutOther(disk, open, k, x, m[x].streams);
    }
    if open[k].writing {
      StoredWithoutWriter(disk, open, k, id, e.streams);
    } else {
      StoredWithoutOther(disk, open, k, id, e.streams);
    }
  }

  // ----- Writing, reading, locking, deleting

  /** Writing to an open file does not change any size the cache keeps. */
  lemma WritingKeepsAccounting(m: map<string, Entry>, disk: Disk, open: seq<Adapter>, total: nat, k: nat, size: nat)
    requires Accounting(m, disk, open, total) && k < |open| && open[k].writing
    ensures Accounting(m, disk[(open[k].id, open[k].index) := size], open, total)
  {
    var id, index := open[k].id, open[k].index;
    var d2 := disk[(id, index) := size];
    assert open[k] == Adapter(id, index, true) && open[k] in open;
    assert WriterOpen(open, id, index);
    forall x | x in m ensures m[x].size == StoredBelow(d2, open, x, m[x].streams) {
      StoredSame(disk, d2, open, open, x, m[x].streams);
    }
  }

  lemma ReaderKeepsAccounting(m: map<string, Entry>, disk: Disk, open: seq<Adapter>, total: nat, id: string, index: nat)
    requires Accounting(m, disk, open, total) && id in m
    ensures Accounting(m[id := m[id].(accessors := m[id].accessors + 1)], disk, open + [Adapter(id, index, false)], total)
  {
    var o2 := open + [Adapter(id, index, false)];
    TotalSizeUpdate(m, id, m[id].(accessors := m[id].accessors + 1));
    forall x | x in m ensures m[x].size == StoredBelow(disk, o2, x, m[x].streams) {
      forall i | 0 <= i < m[x].streams ensures Stored(disk, open, x, i) == Stored(disk, o2, x, i) {
        assert WriterOpen(open, x, i) == WriterOpen(o2, x, i);
      }
      StoredSame(disk, disk, open, o2, x, m[x].streams);
    }
  }

  lemma LockStateKeepsAccounting(m: map<string, Entry>, disk: Disk, open: seq<Adapter>, total: nat, id: string, l: LockState)
    requires Accounting(m, disk, open, total) && id in m
    ensures Accounting(m[id := m[id].(lock_state := l)], disk, open, total)
  {
    TotalSizeUpdate(m, id, m[id].(lock_state := l));
  }

  lemma NewEntryKeepsAccounting(m: map<string, Entry>, disk: Disk, open: seq<Adapter>, total: nat, id: string)
    requires Accounting(m, disk, open, total) && id !in m
    ensures Accounting(m[id := Entry(LS_UNLOCKED, 0, 0, 0)], disk, open, total)
  {
    TotalSizeUpdate(m, id, Entry(LS_UNLOCKED, 0, 0, 0));
  }

  /** The disk without the files of an entry. */
  function WithoutFiles(disk: Disk, id: string, n: nat): Disk {
    map f | f in disk && !(f.0 == id && f.1 < n) :: disk[f]
  }

  lemma DeleteKeepsAccounting(m: map<string, Entry>, disk: Disk, open: seq<Adapter>, total: nat, id: string)
    requires Accounting(m, disk, open, total) && Deletable(m, id) && forall a :: a in open ==> a.id != id
    ensures m[id].size <= total
    ensures Accounting(m - {id}, WithoutFiles(disk, id, m[id].streams), open, total - m[id].size)
  {
    TotalSizeOf(m, id);
    var d2 := WithoutFiles(disk, id, m[id].streams);
    forall x | x in m && x != id ensures m[x].size == StoredBelow(d2, open, x, m[x].streams) {
      StoredSame(disk, d2, open, open, x, m[x].streams);
    }
  }

  // ----- Locking

  lemma OpenKeepsLocking(m: map<string, Entry>, open: seq<Adapter>, total: nat, id: string, e: Entry, a: Adapter)
    requires Locking(m, open, total) && id in m && a.id == id
    requires e.accessors == m[id].accessors + 1 && e.lock_state == m[id].lock_state
    requires a.writing == !e.lock_state.LS_UNLOCKED?
    ensures Locking(m[id := e], open + [a], total + 1)
  {
    forall x | x in m[id := e] ensures m[id := e][x].accessors == Accessors(open + [a], x) {
      AccessorsSplit(open, [a], x);
      assert [a][1..] == [];
    }
  }

  lemma CloseKeepsLocking(m: map<string, Entry>, open: seq<Adapter>, total: nat, k: nat, e: Entry)
    requires Locking(m, open, total) && k < |open|
    requires m[open[k].id].accessors > 0 ==> e.accessors == m[open[k].id].accessors - 1
    requires e.lock_state == if m[open[k].id].lock_state.LS_UNLOCKING? && e.accessors == 0 then LS_UNLOCKED
                             else m[open[k].id].lock_state
    ensures m[open[k].id].accessors > 0
    ensures Locking(m[open[k].id := e], Without(open, k), total - 1)
  {
    var id, o2 := open[k].id, Without(open, k);
    assert open[k] in open;
    NoAccessors(open, id);
    NoAccessors(o2, id);
    forall x | x in m ensures Accessors(open, x) == Accessors(o2, x) + (if x == id then 1 else 0) {
      AccessorsWithout(open, k, x);
    }
    assert forall a :: a in o2 ==> a in open;
  }

  lemma DeleteKeepsLocking(m: map<string, Entry>, open: seq<Adapter>, total: nat, id: string)
    requires Locking(m, open, total) && Deletable(m, id)
    ensures Locking(m - {id}, open, total) && forall a :: a in open ==> a.id != id
  {
    NoAccessors(open, id);
  }

  // ----- The cache

  function Least(a: nat, b: nat): nat {
    if a < b then a else b
  }

  /** a - b in a size_t, which wraps around. */
  function Minus(a: nat, b: nat): nat {
    if b <= a then a - b else (a - b) % 0x1_0000_0000_0000_0000
  }

  predicate Lockable(e: Entry) {
    e.lock_state.LS_UNLOCKING? || (e.lock_state.LS_UNLOCKED? && e.accessors == 0)
  }

  // ----- Evicting the entry that is about to be locked

  /** Entries, total size, and whether it is within the limit, after an eviction that picks these victims. */
  datatype Eviction = Eviction(entries: map<string, Entry>, total: nat, within: bool)

  function Evicted(m: map<string, Entry>, total: nat, max: nat, victims: seq<string>): Eviction
    decreases |victims|
  {
    if total <= max then Eviction(m, total, true)
    else if victims == [] || !Deletable(m, victims[0]) then Eviction(m, total, false)
    else Evicted(m - {victims[0]}, Minus(total, m[victims[0]].size), max, victims[1..])
  }

  /** What LockResource does: it locks, refuses, or evicts the very entry it is about to lock. */
  datatype LockOutcome = Locked | Refused | EntryGone

  function Created(m: map<string, Entry>, id: string): map<string, Entry> {
    if id in m then m else m[id := Entry(LS_UNLOCKED, 0, 0, 0)]
  }

  function LockOutcomeOf(m: map<string, Entry>, total: nat, max: nat, id: string, victims: seq<string>): LockOutcome {
    var created := Created(m, id);
    var after := Evicted(created, total, max, victims);
    if !Lockable(created[id]) || !after.within then Refused else if id in after.entries then Locked else EntryGone
  }

  /** Whether some eviction takes the entry away. */
  ghost predicate CanEvictItself(m: map<string, Entry>, total: nat, max: nat, id: string) {
    exists victims :: LockOutcomeOf(m, total, max, id, victims).EntryGone?
  }

  /** The size of the entries that no eviction can delete. */
  ghost function PinnedSize(m: map<string, Entry>): nat {
    TotalSize(map id | id in m && !Deletable(m, id) :: m[id])
  }

  lemma {:induction false} SubmapIsSmaller(a: map<string, Entry>, b: map<string, Entry>)
    requires forall id :: id in a ==> id in b && b[id] == a[id]
    ensures TotalSize(a) <= TotalSize(b)
    decreases |b|
  {
    hide TotalSize;
    if id :| id in a {
      TotalSizeOf(a, id);
      TotalSizeOf(b, id);
      SubmapIsSmaller(a - {id}, b - {id});
    } else {
      assert a == map[];
      NoEntries();
    }
  }

  lemma NoEntries()
    ensures TotalSize(map[]) == 0
  {
  }

  lemma PinnedWithout(m: map<string, Entry>, id: string)
    requires Deletable(m, id)
    ensures PinnedSize(m - {id}) == PinnedSize(m)
  {
    var n := m - {id};
    assert (map x | x in n && !Deletable(n, x) :: n[x]) == (map x | x in m && !Deletable(m, x) :: m[x]);
  }

  /** An eviction takes away only deletable entries, and it keeps the sum. */
  lemma {:induction false} EvictionKeeps(m: map<string, Entry>, max: nat, victims: seq<string>)
    ensures var e := Evicted(m, TotalSize(m), max, victims);
            && e.total == TotalSize(e.entries) && (e.within <==> e.total <= max)
            && PinnedSize(e.entries) == PinnedSize(m)
            && (forall id :: id in e.entries ==> id in m && e.entries[id] == m[id])
            && (forall id :: id in m && id !in e.entries ==> Deletable(m, id))
    decreases |victims|
  {
    hide TotalSize, PinnedSize;
    if TotalSize(m) > max && victims != [] && Deletable(m, victims[0]) {
      TotalSizeOf(m, victims[0]);
      PinnedWithout(m, victims[0]);
      EvictionKeeps(m - {victims[0]}, max, victims[1..]);
    }
  }

  /** The next victim is there, unlocked and unused, and the cache is above its limit. */
  ghost predicate Takes(m: map<string, Entry>, max: nat, victims: seq<string>, k: nat) {
    && k < |victims| && TotalSize(Less(m, victims[..k])) > max && victims[k] in Less(m, victims[..k])
    && m[victims[k]].lock_state.LS_UNLOCKED? && m[victims[k]].accessors == 0
  }

  lemma LessOne(m: map<string, Entry>, max: nat, victims: seq<string>, k: nat)
    requires k < |victims|
    ensures Less(m - {victims[0]}, victims[1..][..k]) == Less(m, victims[..k + 1])
    ensures Takes(m - {victims[0]}, max, victims[1..], k) <==> Takes(m, max, victims, k + 1)
  {
    hide TotalSize;
    assert victims[..k + 1] == [victims[0]] + victims[1..][..k];
    assert Less(m - {victims[0]}, victims[1..][..k]) == Less(m, victims[..k + 1]);
    if k + 1 < |victims| {
      assert victims[1..][k] == victims[k + 1];
    }
  }

  lemma TakesOneMore(m: map<string, Entry>, max: nat, victims: seq<string>, n: nat)
    requires n < |victims| && Takes(m, max, victims, 0) && !Takes(m - {victims[0]}, max, victims[1..], n)
    requires forall k :: 0 <= k < n ==> Takes(m - {victims[0]}, max, victims[1..], k)
    ensures !Takes(m, max, victims, n + 1) && forall k :: 0 <= k < n + 1 ==> Takes(m, max, victims, k)
  {
    hide Takes;
    LessOne(m, max, victims, n);
    forall k | 0 <= k < n + 1 ensures Takes(m, max, victims, k) {
      if k > 0 {
        LessOne(m, max, victims, k - 1);
      }
    }
  }

  /** An eviction takes the victims in their order, as long as the cache is above its limit and the
      next one can be taken; and then it says whether it has come down to the limit. */
  lemma {:induction false} EvictionIs(m: map<string, Entry>, max: nat, victims: seq<string>) returns (n: nat)
    ensures n <= |victims| && !Takes(m, max, victims, n) && forall k :: 0 <= k < n ==> Takes(m, max, victims, k)
    ensures var left := Less(m, victims[..n]);
            Evicted(m, TotalSize(m), max, victims) == Eviction(left, TotalSize(left), TotalSize(left) <= max)
    decreases |victims|
  {
    hide TotalSize, Less;
    assert victims[..0] == [];
    LessNone(m);
    n := 0;
    if TotalSize(m) > max && victims != [] && Deletable(m, victims[0]) {
      var rest := m - {victims[0]};
      TotalSizeOf(m, victims[0]);
      n := EvictionIs(rest, max, victims[1..]);
      hide Takes;
      TakesOneMore(m, max, victims, n);
      LessOne(m, max, victims, n);
      n := n + 1;
    }
  }

  lemma LessNone(m: map<string, Entry>)
    ensures Less(m, []) == m
  {
  }

  /** The map without these entries. */
  function Less(m: map<string, Entry>, ids: seq<string>): (r: map<string, Entry>)
    ensures forall id :: id in r <==> id in m && id !in ids
    ensures forall id :: id in r ==> r[id] == m[id]
  {
    map id | id in m && id !in ids :: m[id]
  }

  lemma PinnedIsPart(m: map<string, Entry>)
    ensures PinnedSize(m) <= TotalSize(m)
    ensures (forall id :: id in m ==> !Deletable(m, id)) ==> PinnedSize(m) == TotalSize(m)
  {
    var pinned := map id | id in m && !Deletable(m, id) :: m[id];
    SubmapIsSmaller(pinned, m);
    if forall id :: id in m ==> !Deletable(m, id) {
      assert pinned == m;
    }
  }

  /** If the entries that stay are within the limit, there is an eviction that comes down to it. */
  lemma {:induction false} EvictEnough(m: map<string, Entry>, max: nat) returns (victims: seq<string>)
    requires PinnedSize(m) <= max
    ensures Evicted(m, TotalSize(m), max, victims).within
    decreases |m|
  {
    hide TotalSize, PinnedSize;
    victims := [];
    if TotalSize(m) > max {
      PinnedIsPart(m);
      var id :| id in m && Deletable(m, id);
      TotalSizeOf(m, id);
      PinnedWithout(m, id);
      var others := EvictEnough(m - {id}, max);
      victims := [id] + others;
    }
  }

  /** LockResource can evict the entry it is about to lock exactly if the cache is above its limit,
      the entry is new, or unlocked and unused, and the entries that cannot be deleted are within
      the limit. */
  lemma EntryGoneIff(m: map<string, Entry>, max: nat, id: string)
    ensures CanEvictItself(m, TotalSize(m), max, id) <==>
            TotalSize(m) > max && (id in m ==> Deletable(m, id)) && PinnedSize(m) <= max
  {
    hide TotalSize, PinnedSize;
    var c := Created(m, id);
    CreatedSizes(m, id);
    if TotalSize(m) > max && (id in m ==> Deletable(m, id)) && PinnedSize(m) <= max {
      TotalSizeOf(c, id);
      PinnedWithout(c, id);
      var others := EvictEnough(c - {id}, max);
      var victims := [id] + others;
      assert Evicted(c, TotalSize(c), max, victims) == Evicted(c - {id}, TotalSize(c - {id}), max, others);
      EvictionKeeps(c - {id}, max, others);
      assert LockOutcomeOf(m, TotalSize(m), max, id, victims).EntryGone?;
    }
    forall victims | LockOutcomeOf(m, TotalSize(m), max, id, victims).EntryGone?
      ensures TotalSize(m) > max && (id in m ==> Deletable(m, id)) && PinnedSize(m) <= max
    {
      EvictionKeeps(c, max, victims);
      PinnedIsPart(Evicted(c, TotalSize(c), max, victims).entries);
    }
  }

  /** The same for a cache that keeps its accounts, when all files can be deleted. */
  lemma CacheEntryGoneIff(cache: DiskCache, id: string)
    requires cache.Accounted()
    ensures CanEvictItself(cache.map_, cache.total_size_, cache.max_cache_, id) <==>
            && cache.total_size_ > cache.max_cache_ && (id in cache.map_ ==> Deletable(cache.map_, id))
            && PinnedSize(cache.map_) <= cache.max_cache_
  {
    hide TotalSize, PinnedSize, StoredBelow, CanEvictItself;
    EntryGoneIff(cache.map_, cache.max_cache_, id);
  }

  lemma CreatedSizes(m: map<string, Entry>, id: string)
    ensures TotalSize(Created(m, id)) == TotalSize(m) && PinnedSize(Created(m, id)) == PinnedSize(m)
  {
    hide TotalSize;
    if id !in m {
      var c := Created(m, id);
      TotalSizeUpdate(m, id, Entry(LS_UNLOCKED, 0, 0, 0));
      assert (map x | x in c && !Deletable(c, x) :: c[x]) == (map x | x in m && !Deletable(m, x) :: m[x]);
    }
  }

  class DiskCache {
    var map_: map<string, Entry>
    var total_size_: nat
    var total_accessors_: nat
    const max_cache_: nat
    // The environment: sizes of the files there are, and the adapters not destroyed yet.
    var disk: Disk
    var open: seq<Adapter>

    /** What always holds: readers and writers exclude each other. */
    ghost predicate Valid()
      reads this
    {
      Locking(map_, open, total_accessors_)
    }

    /** What holds as long as no stream has two writers and no file fails to be deleted. */
    ghost predicate Accounted()
      reads this
    {
      Accounting(map_, disk, open, total_size_)
    }

    constructor (size: nat)
      ensures Valid() && Accounted() && map_ == map[] && total_size_ == 0 && max_cache_ == size && disk == map[] && open == []
    {
      max_cache_ := size;
      map_, total_size_, total_accessors_, disk, open := map[], 0, 0, map[], [];
    }

    /** Environment: the file of adapter k has been written to. */
    method FileWritten(k: nat, size: nat)
      requires Valid() && k < |open| && open[k].writing
      modifies this`disk
      ensures Valid() && (old(Accounted()) ==> Accounted())
      ensures disk == old(disk)[(open[k].id, open[k].index) := size]
    {
      ghost var before := disk;
      disk := disk[(open[k].id, open[k].index) := size];
      if Accounting(map_, before, open, total_size_) {
        WritingKeepsAccounting(map_, before, open, total_size_, k, size);
      }
    }

    /** GetOrCreateEntry with `create`. */
    method CreateEntry(id: string)
      requires Valid()
      modifies this`map_
      ensures Valid() && (old(Accounted()) ==> Accounted())
      ensures map_ == if id in old(map_) then old(map_) else old(map_)[id := Entry(LS_UNLOCKED, 0, 0, 0)]
    {
      hide Accounting, StoredBelow;
      if id !in map_ {
        ghost var before := map_;
        NoAccessors(open, id);
        map_ := map_[id := Entry(LS_UNLOCKED, 0, 0, 0)];
        if Accounting(before, disk, open, total_size_) {
          NewEntryKeepsAccounting(before, disk, open, total_size_, id);
        }
      }
    }

    method SetLockState(id: string, state: LockState)
      requires Valid() && id in map_
      requires map_[id].lock_state.LS_UNLOCKED? == state.LS_UNLOCKED? || map_[id].accessors == 0
      requires state.LS_UNLOCKING? ==> map_[id].accessors > 0
      modifies this`map_
      ensures Valid() && (old(Accounted()) ==> Accounted())
      ensures map_ == old(map_)[id := old(map_[id]).(lock_state := state)]
    {
      hide Accounting, StoredBelow;
      ghost var before := map_;
      NoAccessors(open, id);
      map_ := map_[id := map_[id].(lock_state := state)];
      if Accounting(before, disk, open, total_size_) {
        LockStateKeepsAccounting(before, disk, open, total_size_, id, state);
      }
    }

    /** LockResource.  `victims` are the entries an eviction picks.  The entry itself may be among them:
        then the source goes on with an entry that is deleted, and nothing is said beyond that.
        EntryGoneIff tells when that can be. */
    method LockResource(id: string, victims: seq<string>, stuck: set<(string, nat)>) returns (outcome: LockOutcome)
      requires Valid()
      modifies this`map_, this`total_size_, this`disk
      ensures Valid() && (old(Accounted()) && stuck == {} ==> Accounted())
      ensures stuck == {} ==> outcome == LockOutcomeOf(old(map_), old(total_size_), max_cache_, id, victims)
      // It evicts the entry only above the limit, and only one that is new, or unlocked and unused.
      ensures outcome.EntryGone? ==> id !in map_ && total_size_ <= max_cache_
      ensures id !in map_ ==>
                && !outcome.Locked? && id in victims && old(total_size_) > max_cache_
                && (id in old(map_) ==> old(map_[id].lock_state.LS_UNLOCKED? && map_[id].accessors == 0))
      // A resource that is being read cannot be locked; one that is being unlocked can.
      ensures outcome.Locked? ==>
                && id in map_ && map_[id].lock_state.LS_LOCKED?
                && (id in old(map_) ==> old(map_[id].lock_state.LS_UNLOCKING? || (map_[id].lock_state.LS_UNLOCKED? && map_[id].accessors == 0)))
      ensures outcome.Refused? && id in old(map_) && id in map_ ==> map_[id] == old(map_)[id]
      // Under the limit nothing else decides, and nothing else changes.
      ensures old(total_size_) <= max_cache_ ==>
                && outcome == (if id !in old(map_) || old(map_[id].lock_state.LS_UNLOCKING?) ||
                                  old(map_[id].lock_state.LS_UNLOCKED? && map_[id].accessors == 0) then Locked else Refused)
                && total_size_ == old(total_size_) && disk == old(disk)
                && (outcome.Locked? && id in old(map_) ==> map_ == old(map_)[id := old(map_)[id].(lock_state := LS_LOCKED)])
                && (outcome.Locked? && id !in old(map_) ==> map_ == old(map_)[id := Entry(LS_LOCKED, 0, 0, 0)])
    {
      hide Accounting, Locking;
      CreateEntry(id);
      var entry := map_[id];
      if entry.lock_state.LS_LOCKED? {
        return Refused;
      }
      if entry.lock_state.LS_UNLOCKED? && entry.accessors > 0 {
        return Refused;
      }
      if total_size_ > max_cache_ {
        var within := CheckLimit(victims, stuck);
        if !within {
          return Refused;
        }
        if id !in map_ {
          return EntryGone;
        }
      }
      SetLockState(id, LS_LOCKED);
      outcome := Locked;
    }

    /** WriteResource; `canOpen` is whether the file can be created. */
    method WriteResource(id: string, index: nat, canOpen: bool) returns (ok: bool)
      requires Valid() && id in map_
      modifies this`map_, this`total_size_, this`total_accessors_, this`disk, this`open
      ensures Valid() && ok == (canOpen && old(map_[id].lock_state.LS_LOCKED?))
      ensures old(Accounted()) && !old(WriterOpen(open, id, index)) ==> Accounted()
      ensures ok ==> open == old(open) + [Adapter(id, index, true)] && disk == old(disk)[(id, index) := 0]
      // The size of the stream, as far as the entry counts it, is taken out of the entry and the total.
      ensures var previous := old(Least(SizeOnDisk(disk, id, index), map_[id].size));
              ok ==> map_ == old(map_)[id := WithWriter(old(map_)[id], index, previous)] &&
                     total_size_ == Minus(old(total_size_), previous)
      ensures !ok ==> open == old(open) && map_ == old(map_) && disk == old(disk) && total_size_ == old(total_size_)
    {
      hide Accounting, Locking, StoredBelow;
      var entry := map_[id];
      if !entry.lock_state.LS_LOCKED? {
        return false;
      }
      var previous := Least(SizeOnDisk(disk, id, index), entry.size);
      if !canOpen {
        return false;
      }
      ghost var m, d, o, total, accessors := map_, disk, open, total_size_, total_accessors_;
      disk := disk[(id, index) := 0];
      entry := entry.(streams := if entry.streams < index + 1 then index + 1 else entry.streams, size := entry.size - previous);
      total_size_ := Minus(total_size_, previous);
      entry := entry.(accessors := entry.accessors + 1);
      total_accessors_ := total_accessors_ + 1;
      map_ := map_[id := entry];
      open := open + [Adapter(id, index, true)];
      OpenKeepsLocking(m, o, accessors, id, entry, Adapter(id, index, true));
      if Accounting(m, d, o, total) && !WriterOpen(o, id, index) {
        WriterKeepsAccounting(m, d, o, total, id, index);
      }
      ok := true;
    }

    method UnlockResource(id: string, victims: seq<string>, stuck: set<(string, nat)>) returns (ok: bool)
      requires Valid() && id in map_
      modifies this`map_, this`total_size_, this`disk
      ensures Valid() && (old(Accounted()) && stuck == {} ==> Accounted())
      ensures ok == old(map_[id].lock_state.LS_LOCKED?)
      ensures ok && old(map_[id].accessors) > 0 ==> id in map_ && map_[id].lock_state.LS_UNLOCKING?
      ensures ok && id in map_ && old(map_[id].accessors) == 0 ==> map_[id].lock_state.LS_UNLOCKED?
      ensures !ok ==> map_ == old(map_)
      // An entry that is unlocked at once may be evicted, as may others; under the limit nothing is.
      ensures ok && stuck == {} && old(map_[id].accessors) == 0 ==>
                var e := Evicted(old(map_)[id := old(map_)[id].(lock_state := LS_UNLOCKED)], old(total_size_), max_cache_, victims);
                map_ == e.entries && total_size_ == e.total
      ensures ok && (old(total_size_) <= max_cache_ || old(map_[id].accessors) > 0) ==>
                && total_size_ == old(total_size_) && disk == old(disk)
                && map_ == old(map_)[id := old(map_)[id].(lock_state := if old(map_[id].accessors) > 0 then LS_UNLOCKING else LS_UNLOCKED)]
    {
      var entry := map_[id];
      if !entry.lock_state.LS_LOCKED? {
        return false;
      }
      SetLockState(id, if entry.accessors > 0 then LS_UNLOCKING else LS_UNLOCKED);
      if entry.accessors == 0 {
        var within := CheckLimit(victims, stuck);
      }
      ok := true;
    }

    /** ReadResource; `canOpen` is whether an existing file can be opened. */
    method ReadResource(id: string, index: nat, canOpen: bool) returns (ok: bool)
      requires Valid() && id in map_
      modifies this`map_, this`total_accessors_, this`open
      ensures Valid() && (old(Accounted()) ==> Accounted())
      ensures ok == (old(map_[id].lock_state.LS_UNLOCKED? && index < map_[id].streams && (id, index) in disk) && canOpen)
      ensures open == old(open) + (if ok then [Adapter(id, index, false)] else [])
      ensures map_ == if ok then old(map_)[id := old(map_)[id].(accessors := old(map_)[id].accessors + 1)] else old(map_)
    {
      hide Accounting, Locking, StoredBelow;
      var entry := map_[id];
      if !entry.lock_state.LS_UNLOCKED? || index >= entry.streams {
        return false;
      }
      if !((id, index) in disk && canOpen) {
        return false;
      }
      ghost var m, o, accessors := map_, open, total_accessors_;
      entry := entry.(accessors := entry.accessors + 1);
      map_ := map_[id := entry];
      total_accessors_ := total_accessors_ + 1;
      open := open + [Adapter(id, index, false)];
      OpenKeepsLocking(m, o, accessors, id, entry, Adapter(id, index, false));
      if Accounting(m, disk, o, total_size_) {
        ReaderKeepsAccounting(m, disk, o, total_size_, id, index);
      }
      ok := true;
    }

    /** DeleteResource; files in `stuck` cannot be deleted.  An entry with an open adapter stays. */
    method DeleteResource(id: string, stuck: set<(string, nat)>) returns (ok: bool)
      requires Valid()
      modifies this`map_, this`total_size_, this`disk
      ensures Valid() && (old(Accounted()) && stuck == {} ==> Accounted())
      ensures map_ == if id in old(map_) && old(map_[id].lock_state.LS_UNLOCKED? && map_[id].accessors == 0) then old(map_) - {id}
                      else old(map_)
      ensures id in old(map_) && old(!map_[id].lock_state.LS_UNLOCKED? || map_[id].accessors > 0) ==> !ok && disk == old(disk)
      ensures (exists a :: a in open && a.id == id) ==> map_ == old(map_)
      ensures id !in old(map_) ==> ok
      ensures id in old(map_) && old(map_[id].lock_state.LS_UNLOCKED? && map_[id].accessors == 0) ==>
                total_size_ == (if old(map_[id].size <= total_size_) then old(total_size_ - map_[id].size)
                                else old(total_size_ - map_[id].size) % 0x1_0000_0000_0000_0000) &&
                (stuck == {} ==> ok && disk == WithoutFiles(old(disk), id, old(map_)[id].streams))
    {
      hide Accounting, StoredBelow;
      if id !in map_ {
        return true;
      }
      var entry := map_[id];
      NoAccessors(open, id);
      if !entry.lock_state.LS_UNLOCKED? || entry.accessors > 0 {
        return false;
      }
      ghost var before := disk;
      ok := DeleteFiles(id, entry.streams, stuck);
      DeleteKeepsLocking(map_, open, total_accessors_, id);
      if Accounting(map_, before, open, total_size_) {
        DeleteKeepsAccounting(map_, before, open, total_size_, id);
      }
      total_size_ := Minus(total_size_, entry.size);
      map_ := map_ - {id};
    }

    method DeleteFiles(id: string, streams: nat, stuck: set<(string, nat)>) returns (success: bool)
      modifies this`disk
      ensures stuck == {} ==> success && disk == WithoutFiles(old(disk), id, streams)
      ensures success ==> disk == WithoutFiles(old(disk), id, streams)
    {
      success := true;
      for index := 0 to streams
        invariant success ==> disk == WithoutFiles(old(disk), id, index)
        invariant stuck == {} ==> success
      {
        if (id, index) in disk {
          if (id, index) in stuck {
            success := false;
          } else {
            disk := disk - {(id, index)};
          }
        }
      }
    }

    /** CheckLimit, with the choice of the entries to evict left open. */
    method CheckLimit(victims: seq<string>, stuck: set<(string, nat)>) returns (within: bool)
      requires Valid()
      modifies this`map_, this`total_size_, this`disk
      ensures Valid() && (old(Accounted()) && stuck == {} ==> Accounted())
      ensures within ==> total_size_ <= max_cache_
      ensures old(total_size_) <= max_cache_ ==>
                within && map_ == old(map_) && disk == old(disk) && total_size_ == old(total_size_)
      ensures forall id :: id in map_ ==> id in old(map_) && map_[id] == old(map_[id])
      ensures forall id :: id in old(map_) && id !in map_ ==>
                old(map_[id].lock_state.LS_UNLOCKED? && map_[id].accessors == 0) && id in victims
      ensures stuck == {} ==>
                Eviction(map_, total_size_, within) == Evicted(old(map_), old(total_size_), max_cache_, victims)
    {
      hide Accounting, Locking, WithoutFiles;
      var next := 0;
      assert victims[0..] == victims;
      while total_size_ > max_cache_
        invariant Valid() && next <= |victims|
        invariant old(Accounted()) && stuck == {} ==> Accounted()
        invariant old(total_size_) <= max_cache_ ==> map_ == old(map_) && disk == old(disk) && total_size_ == old(total_size_)
        invariant forall id :: id in map_ ==> id in old(map_) && map_[id] == old(map_[id])
        invariant forall id :: id in old(map_) && id !in map_ ==> old(Deletable(map_, id)) && id in victims
        invariant stuck == {} ==>
                    Evicted(old(map_), old(total_size_), max_cache_, victims) ==
                    Evicted(map_, total_size_, max_cache_, victims[next..])
        decreases |victims| - next
      {
        assert next < |victims| ==> victims[next..][0] == victims[next] && victims[next..][1..] == victims[next + 1..];
        if next == |victims| || !Deletable(map_, victims[next]) {
          return false;
        }
        var ok := DeleteResource(victims[next], stuck);
        next := next + 1;
        if !ok {
          return false;
        }
      }
      within := true;
    }

    /** The first part of ReleaseResource: the entry without adapter k. */
    method CloseAdapter(k: nat) returns (unlocked: bool)
      requires Valid() && k < |open|
      modifies this`map_, this`total_size_, this`total_accessors_, this`open
      ensures Valid() && open == Without(old(open), k) && (old(Accounted()) ==> Accounted())
      ensures var a := old(open)[k];
              && a.id in old(map_) && old(map_)[a.id].accessors > 0
              && map_ == old(map_)[a.id := Released(old(map_)[a.id], SizeOnDisk(disk, a.id, a.index))]
              && unlocked == (old(map_)[a.id].lock_state.LS_UNLOCKING? && map_[a.id].lock_state.LS_UNLOCKED?)
      ensures total_accessors_ == old(total_accessors_) - 1
      ensures var a := old(open)[k]; total_size_ + old(map_)[a.id].size == old(total_size_) + map_[a.id].size
    {
      hide Accounting, StoredBelow, TotalSize, Accessors;
      var id, index := open[k].id, open[k].index;
      assert open[k] in open;
      ghost var m, o, total := map_, open, total_size_;
      NoAccessors(open, id);
      var entry := map_[id];
      entry := entry.(accessors := entry.accessors - 1);
      total_accessors_ := total_accessors_ - 1;
      unlocked := false;
      if !entry.lock_state.LS_UNLOCKED? {
        var size := SizeOnDisk(disk, id, index);
        entry := entry.(size := entry.size + size);
        total_size_ := total_size_ + size;
        if entry.lock_state.LS_UNLOCKING? && entry.accessors == 0 {
          entry := entry.(lock_state := LS_UNLOCKED);
          unlocked := true;
        }
      }
      map_ := map_[id := entry];
      open := Without(open, k);
      CloseKeepsLocking(m, o, |o|, k, entry);
      if Accounting(m, disk, o, total) {
        ReleaseKeepsAccounting(m, disk, o, total, k, entry);
      }
    }

    /** ReleaseResource: the destructor of adapter k. */
    method ReleaseResource(k: nat, victims: seq<string>, stuck: set<(string, nat)>)
      requires Valid() && k < |open|
      modifies this`map_, this`total_size_, this`total_accessors_, this`disk, this`open
      ensures Valid() && open == Without(old(open), k) && total_accessors_ == old(total_accessors_) - 1
      ensures old(Accounted()) && stuck == {} ==> Accounted()
      // The entry is there, and stays, unless this unlocks it and the eviction that follows picks it.
      ensures var a := old(open)[k];
              && a.id in old(map_) && old(map_)[a.id].accessors > 0
              && var e := Released(old(map_)[a.id], old(SizeOnDisk(disk, open[k].id, open[k].index)));
                 if a.id in map_ then map_[a.id] == e
                 else a.id in victims && old(map_)[a.id].lock_state.LS_UNLOCKING? && e.lock_state.LS_UNLOCKED?
      // A stream that was being written counts from now on.  The last adapter of an entry that is being
      // unlocked unlocks it; no other lock state changes.
      ensures var a := old(open)[k];
              a.id in old(map_) && a.id in map_ ==>
                var was, now := old(map_)[a.id], map_[a.id];
                && now.accessors == was.accessors - 1 && now.streams == was.streams
                && now.lock_state == (match was.lock_state
                                     case LS_LOCKED => LS_LOCKED
                                     case LS_UNLOCKED => LS_UNLOCKED
                                     case LS_UNLOCKING => if was.accessors == 1 then LS_UNLOCKED else LS_UNLOCKING)
                && now.size == was.size + (if was.lock_state.LS_UNLOCKED? || (a.id, a.index) !in old(disk) then 0
                                          else old(disk)[(a.id, a.index)])
      // If this unlocks the entry, an eviction follows.
      ensures var a := old(open)[k];
              && a.id in old(map_) && old(map_)[a.id].accessors > 0
              && var e := Released(old(map_)[a.id], old(SizeOnDisk(disk, open[k].id, open[k].index)));
                 stuck == {} && old(map_)[a.id].lock_state.LS_UNLOCKING? && e.lock_state.LS_UNLOCKED? ==>
                   var after := Evicted(old(map_)[a.id := e], old(total_size_) + e.size - old(map_)[a.id].size, max_cache_, victims);
                   map_ == after.entries && total_size_ == after.total
      // Nothing is evicted unless this unlocks the entry.
      ensures var a := old(open)[k];
              a.id in old(map_) && !old(map_)[a.id].lock_state.LS_UNLOCKING? ==>
                && disk == old(disk) && map_.Keys == old(map_).Keys
                && (forall id :: id in map_ && id != a.id ==> map_[id] == old(map_)[id])
                && total_size_ + old(map_)[a.id].size == old(total_size_) + map_[a.id].size
    {
      hide Accounting, Locking;
      var unlocked := CloseAdapter(k);
      if unlocked {
        var within := CheckLimit(victims, stuck);
      }
    }
  }

  /** An entry of `size` bytes, written and closed, in a cache that has room for it. */
  method AddEntry(cache: DiskCache, id: string, size: nat)
    requires cache.Valid() && cache.Accounted() && cache.open == [] && id !in cache.map_
    requires (forall f :: f in cache.disk ==> f.0 != id) && cache.total_size_ <= cache.max_cache_
    modifies cache
    ensures cache.Valid() && cache.Accounted() && cache.open == []
    ensures cache.map_ == old(cache.map_)[id := Entry(LS_LOCKED, 0, size, 1)]
    ensures cache.total_size_ == old(cache.total_size_) + size && cache.disk == old(cache.disk)[(id, 0) := size]
  {
    hide Accounting, Locking;
    var outcome := cache.LockResource(id, [], {});
    var ok := cache.WriteResource(id, 0, true);
    cache.FileWritten(0, size);
    cache.ReleaseResource(0, [], {});
  }

  /** The run in which LockResource evicts what it is about to lock: "a" is there, unlocked and unused;
      "z" is locked and brings the cache above its limit; then "a" is to be locked again. */
  method LockEvictsItself() returns (cache: DiskCache, outcome: LockOutcome)
    ensures outcome == EntryGone && "a" !in cache.map_
  {
    hide Accounting, Locking;
    cache := new DiskCache(10);
    AddEntry(cache, "a", 5);
    var ok := cache.UnlockResource("a", [], {});
    AddEntry(cache, "z", 8);
    outcome := cache.LockResource("a", ["a"], {});
  }
}
