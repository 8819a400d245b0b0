/** The append-only extent store: a data file, an index file, and the map between them. */
module ExtentStores {
  import opened Bytes

  datatype MetaNode = MetaNode(id: int, start: int, length: int)

  /** The index file: a count, then records; an older, longer index is overwritten without being cut. */
  datatype IndexFile = NoIndex | Index(size: int, records: seq<MetaNode>)

  datatype Store = Store(data: seq<byte>, index: IndexFile, metas: map<int, MetaNode>, latest: MetaNode)

  const NO_FILE := MetaNode(-1, 0, 0)
  const EMPTY := MetaNode(0, 0, 0)

  /** The data file is opened for appending: the bytes go to its end, wherever the recorded offset points. */
  function Written(s: Store, bytes: seq<byte>): Store {
    var node := MetaNode(s.latest.id + 1, s.latest.start + s.latest.length, |bytes|);
    s.(data := s.data + bytes, metas := s.metas[node.id := node], latest := node)
  }

  ghost predicate Listed(records: seq<MetaNode>, id: int) {
    exists i :: 0 <= i < |records| && records[i].id == id
  }

  /** `records` lists every extent once. */
  ghost predicate Lists(records: seq<MetaNode>, metas: map<int, MetaNode>) {
    && (forall i :: 0 <= i < |records| ==> records[i].id in metas && metas[records[i].id] == records[i])
    && (forall id <- metas :: Listed(records, id))
    && (forall i, j :: 0 <= i < j < |records| ==> records[i].id != records[j].id)
  }

  function Overwrite(before: IndexFile, records: seq<MetaNode>): IndexFile {
    Index(|records|,
          records + if before.Index? && |before.records| > |records| then before.records[|records|..] else [])
  }

  /** The index written with the extents in some order. */
  function Saved(s: Store, records: seq<MetaNode>): Store {
    s.(index := Overwrite(s.index, records))
  }

  /** The map the first `n` records build. */
  function Loaded(records: seq<MetaNode>, n: nat): map<int, MetaNode>
    requires n <= |records|
    decreases n
  {
    if n == 0 then map[] else Loaded(records, n - 1)[records[n - 1].id := records[n - 1]]
  }

  /** The largest id among them, or -1. */
  function MaxId(records: seq<MetaNode>, n: nat): (m: int)
    requires n <= |records|
    ensures m >= -1 && forall i :: 0 <= i < n ==> records[i].id <= m
    ensures m == -1 || exists i :: 0 <= i < n && records[i].id == m
    decreases n
  {
    if n == 0 then -1
    else
      var m := MaxId(records, n - 1);
      if m < records[n - 1].id then records[n - 1].id else m
  }

  /** The index holds what its count announces. */
  predicate Whole(index: IndexFile) {
    index.Index? ==> 0 <= index.size <= |index.records|
  }

  lemma {:induction false} LoadedKeys(records: seq<MetaNode>, n: nat)
    requires n <= |records|
    ensures forall id :: id in Loaded(records, n) <==> exists i :: 0 <= i < n && records[i].id == id
    ensures forall id <- Loaded(records, n) :: Loaded(records, n)[id].id == id
    decreases n
  {
    if n > 0 {
      LoadedKeys(records, n - 1);
    }
  }

  lemma MaxIsLoaded(records: seq<MetaNode>, n: nat)
    requires n <= |records|
    ensures MaxId(records, n) != -1 ==> MaxId(records, n) in Loaded(records, n)
  {
    LoadedKeys(records, n);
  }

  /** `init`: what the index lists joins the extents the object holds. */
  function Opened(s: Store): Store
    requires Whole(s.index)
  {
    if s.index.NoIndex? || s.index.records == [] then s.(latest := EMPTY)
    else
      var loaded := Loaded(s.index.records, s.index.size);
      var max := MaxId(s.index.records, s.index.size);
      MaxIsLoaded(s.index.records, s.index.size);
      s.(metas := s.metas + loaded, latest := if max == -1 then EMPTY else loaded[max])
  }

  /** A new store object over the same files. */
  function Reopened(s: Store): Store
    requires Whole(s.index)
  {
    Opened(s.(metas := map[]))
  }

  /** What reading an extent returns. */
  function ReadBack(data: seq<byte>, node: MetaNode): seq<byte> {
    if 0 <= node.start <= |data| && 0 <= node.length then data[node.start..Min(node.start + node.length, |data|)]
    else []
  }

  /** Extent `id` follows the one before it, lies in the data file and holds what `log` says. */
  ghost predicate Extent(data: seq<byte>, metas: map<int, MetaNode>, base: int, log: map<int, seq<byte>>, id: int) {
    && id in metas && id in log && (id == base + 1 || id - 1 in metas)
    && var n := metas[id];
       && n.id == id && n.start == (if id == base + 1 then 0 else metas[id - 1].start + metas[id - 1].length)
       && n.length == |log[id]| && 0 <= n.start && n.start + n.length <= |data|
       && data[n.start..n.start + n.length] == log[id]
  }

  /**
   The invariant: consecutive ids from `base + 1`, extents one after the other
   from the start of the data file to its end, each holding what `log` says.
  */
  ghost predicate Inv(s: Store, base: int, log: map<int, seq<byte>>) {
    && -1 <= base <= s.latest.id && s.metas.Keys == log.Keys
    && (forall id :: id in s.metas <==> base < id <= s.latest.id)
    && (forall id {:trigger Extent(s.data, s.metas, base, log, id)} ::
          base < id <= s.latest.id ==> Extent(s.data, s.metas, base, log, id))
    && s.latest == (if s.latest.id == base then MetaNode(base, 0, 0) else s.metas[s.latest.id])
    && |s.data| == s.latest.start + s.latest.length
  }

  /** A store over no files keeps the invariant, before and after it is opened. */
  lemma NothingStored()
    ensures var none := Store([], NoIndex, map[], NO_FILE);
            Inv(none, -1, map[]) && Inv(Reopened(none), 0, map[])
  {
  }

  /** A write returns the next id and keeps every earlier extent. */
  lemma WriteKeeps(s: Store, base: int, log: map<int, seq<byte>>, bytes: seq<byte>)
    requires Inv(s, base, log)
    ensures Inv(Written(s, bytes), base, log[s.latest.id + 1 := bytes])
    ensures s.latest.id + 1 !in log
  {
    var t, log' := Written(s, bytes), log[s.latest.id + 1 := bytes];
    assert s.latest.id + 1 !in s.metas;
    if s.latest.id != base {
      assert Extent(s.data, s.metas, base, log, s.latest.id);
    }
    forall id | base < id <= t.latest.id
      ensures Extent(t.data, t.metas, base, log', id)
    {
      if id <= s.latest.id {
        assert Extent(s.data, s.metas, base, log, id);
        var n := s.metas[id];
        assert t.data[n.start..n.start + n.length] == s.data[n.start..n.start + n.length];
      } else {
        assert t.data[|s.data|..|s.data| + |bytes|] == bytes;
      }
    }
  }

  /** Every extent reads back as written. */
  lemma ReadsBack(s: Store, base: int, log: map<int, seq<byte>>, id: int)
    requires Inv(s, base, log) && id in log
    ensures id in s.metas && ReadBack(s.data, s.metas[id]) == log[id]
  {
    assert Extent(s.data, s.metas, base, log, id);
  }

  /** Extents of different ids do not overlap. */
  lemma {:induction false} Disjoint(s: Store, base: int, log: map<int, seq<byte>>, id: int, later: int)
    requires Inv(s, base, log) && id in s.metas && later in s.metas && id < later
    ensures s.metas[id].start + s.metas[id].length <= s.metas[later].start
    decreases later - id
  {
    assert Extent(s.data, s.metas, base, log, later);
    if id + 1 < later {
      assert Extent(s.data, s.metas, base, log, later - 1);
      Disjoint(s, base, log, id, later - 1);
    }
  }

  lemma LoadedLists(records: seq<MetaNode>, n: nat, metas: map<int, MetaNode>)
    requires n <= |records| && Lists(records[..n], metas)
    ensures Loaded(records, n) == metas
  {
    LoadedAt(records, n, metas);
    LoadedKeys(records, n);
    var loaded := Loaded(records, n);
    forall id | id in metas
      ensures id in loaded
    {
      assert Listed(records[..n], id);
      var i :| 0 <= i < n && records[..n][i].id == id;
      assert records[i].id == id;
    }
    forall id | id in loaded
      ensures id in metas && loaded[id] == metas[id]
    {
    }
  }

  lemma {:induction false} LoadedAt(records: seq<MetaNode>, n: nat, metas: map<int, MetaNode>)
    requires n <= |records|
    requires forall i :: 0 <= i < n ==> records[i].id in metas && metas[records[i].id] == records[i]
    ensures forall id <- Loaded(records, n) :: id in metas && Loaded(records, n)[id] == metas[id]
    decreases n
  {
    if n > 0 {
      LoadedAt(records, n - 1, metas);
    }
  }

  /** The largest id of a listing of consecutive ids is the last one. */
  lemma MaxOfListing(records: seq<MetaNode>, n: nat, metas: map<int, MetaNode>, last: int)
    requires n <= |records| && Lists(records[..n], metas)
    requires last >= 0 && last in metas && forall id <- metas :: id <= last
    ensures MaxId(records, n) == last
  {
    assert Listed(records[..n], last);
    var i :| 0 <= i < n && records[..n][i].id == last;
    assert records[i].id == last;
    LoadedLists(records, n, metas);
    MaxIsLoaded(records, n);
  }

  lemma ListedMore(records: seq<MetaNode>, node: MetaNode)
    ensures Listed(records + [node], node.id)
    ensures forall id :: Listed(records, id) ==> Listed(records + [node], id)
  {
    var more := records + [node];
    assert more[|records|] == node;
    forall id | Listed(records, id)
      ensures Listed(more, id)
    {
      var i :| 0 <= i < |records| && records[i].id == id;
      assert more[i].id == id;
    }
  }

  lemma ListsSome(records: seq<MetaNode>, metas: map<int, MetaNode>)
    requires Lists(records, metas) && records != []
    ensures metas != map[]
  {
    assert records[0].id in metas;
  }

  /** The index on disk lists the extents of the open store. */
  ghost predicate Current(s: Store) {
    Whole(s.index) && s.index.Index? && Lists(s.index.records[..s.index.size], s.metas)
  }

  lemma SaveIsCurrent(s: Store, records: seq<MetaNode>)
    requires Lists(records, s.metas)
    ensures Current(Saved(s, records))
  {
    assert Saved(s, records).index.records[..|records|] == records;
  }

  /** Opening a saved store again restores its extents and the latest one, in whatever order they were written. */
  lemma ReopenKeeps(s: Store, base: int, log: map<int, seq<byte>>)
    requires Inv(s, base, log) && Current(s)
    ensures Reopened(s).data == s.data && Reopened(s).metas == s.metas
    ensures Reopened(s).latest == if s.latest.id == base then EMPTY else s.latest
    ensures Inv(Reopened(s), if s.latest.id == base then 0 else base, log)
  {
    var all, n := s.index.records, s.index.size;
    LoadedLists(all, n, s.metas);
    JoinNone(s.metas);
    JoinNone(map[]);
    if s.latest.id == base {
      assert s.metas == map[];
      if n > 0 {
        ListsSome(all[..n], s.metas);
      }
    } else {
      MaxOfListing(all, n, s.metas, s.latest.id);
      assert Listed(all[..n], s.latest.id);
    }
  }

  datatype Op = Write(bytes: seq<byte>) | Save(records: seq<MetaNode>) | Reopen

  /** A save lists the extents in some order; a store is opened again only when its index is current. */
  ghost predicate Legal(s: Store, op: Op) {
    match op
    case Write(_) => true
    case Save(records) => Lists(records, s.metas)
    case Reopen => Current(s)
  }

  ghost function Step(s: Store, op: Op): Store
    requires Legal(s, op)
  {
    match op
    case Write(bytes) => Written(s, bytes)
    case Save(records) => Saved(s, records)
    case Reopen => Reopened(s)
  }

  /** What has been written under which id. */
  function Logged(s: Store, log: map<int, seq<byte>>, op: Op): map<int, seq<byte>> {
    if op.Write? then log[s.latest.id + 1 := op.bytes] else log
  }

  ghost predicate LegalRun(s: Store, ops: seq<Op>)
    decreases |ops|
  {
    ops != [] ==> Legal(s, ops[0]) && LegalRun(Step(s, ops[0]), ops[1..])
  }

  ghost function RunOf(s: Store, log: map<int, seq<byte>>, ops: seq<Op>): (Store, map<int, seq<byte>>)
    requires LegalRun(s, ops)
    decreases |ops|
  {
    if ops == [] then (s, log) else RunOf(Step(s, ops[0]), Logged(s, log, ops[0]), ops[1..])
  }

  /** Over any run, the invariant holds and no id ever changes its bytes. */
  lemma {:induction false} RunKeeps(s: Store, base: int, log: map<int, seq<byte>>, ops: seq<Op>) returns (base': int)
    requires Inv(s, base, log) && LegalRun(s, ops)
    ensures Inv(RunOf(s, log, ops).0, base', RunOf(s, log, ops).1)
    ensures forall id <- log :: id in RunOf(s, log, ops).1 && RunOf(s, log, ops).1[id] == log[id]
    ensures forall id <- RunOf(s, log, ops).1 ::
              id in RunOf(s, log, ops).0.metas
              && ReadBack(RunOf(s, log, ops).0.data, RunOf(s, log, ops).0.metas[id]) == RunOf(s, log, ops).1[id]
    decreases |ops|
  {
    base' := base;
    if ops == [] {
      forall id <- log
        ensures id in s.metas && ReadBack(s.data, s.metas[id]) == log[id]
      {
        ReadsBack(s, base, log, id);
      }
    } else {
      match ops[0] {
        case Write(bytes) => WriteKeeps(s, base, log, bytes);
        case Save(records) => SaveKeeps(s, base, log, records);
        case Reopen =>
          ReopenKeeps(s, base, log);
          base' := if s.latest.id == base then 0 else base;
      }
      base' := RunKeeps(Step(s, ops[0]), base', Logged(s, log, ops[0]), ops[1..]);
    }
  }

  lemma SaveKeeps(s: Store, base: int, log: map<int, seq<byte>>, records: seq<MetaNode>)
    requires Inv(s, base, log)
    ensures Inv(Saved(s, records), base, log)
  {
    forall id | base < id <= s.latest.id
      ensures Extent(s.data, s.metas, base, log, id)
    {
    }
  }

  /** Where the next write's bytes go, and where they are read: the same place exactly when nothing was lost. */
  lemma ReadsBackIff(s: Store)
    requires 0 <= s.latest.start && 0 <= s.latest.length && s.latest.start + s.latest.length <= |s.data|
    ensures (forall bytes :: ReadBack(Written(s, bytes).data, Written(s, bytes).latest) == bytes)
       <==> |s.data| == s.latest.start + s.latest.length
  {
    var end := s.latest.start + s.latest.length;
    if |s.data| == end {
      forall bytes
        ensures ReadBack(Written(s, bytes).data, Written(s, bytes).latest) == bytes
      {
        assert (s.data + bytes)[end..] == bytes;
      }
    } else {
      var other: byte := if s.data[end] == 0 then 1 else 0;
      assert ReadBack(Written(s, [other]).data, Written(s, [other]).latest)[0] == s.data[end];
    }
  }

  /** Opening again without saving loses the write, reuses its id and reads the lost bytes under it. */
  lemma LostWrite()
    ensures var first := Reopened(Store([], NoIndex, map[], NO_FILE));
            var again := Written(Reopened(Written(first, [1])), [2]);
            again.latest.id == 1 && ReadBack(again.data, again.latest) == [1]
  {
  }

  lemma JoinMore(old': map<int, MetaNode>, loaded: map<int, MetaNode>, node: MetaNode)
    ensures (old' + loaded)[node.id := node] == old' + loaded[node.id := node]
  {
    var one, other := (old' + loaded)[node.id := node], old' + loaded[node.id := node];
    forall id | id in one
      ensures id in other && one[id] == other[id]
    {
    }
    forall id | id in other
      ensures id in one
    {
    }
  }

  lemma JoinNone(metas: map<int, MetaNode>)
    ensures metas + map[] == metas && map[] + metas == metas
  {
    var empty: map<int, MetaNode> := map[];
    var one, other := metas + empty, empty + metas;
    forall id | id in one || id in other
      ensures id in metas && id in one && id in other && one[id] == metas[id] == other[id]
    {
    }
    forall id | id in metas
      ensures id in one && id in other && one[id] == metas[id] == other[id]
    {
    }
  }

  /** The two files on disk; the data file may not be there yet. */
  class Disk {
    var present: bool
    var data: seq<byte>
    var index: IndexFile

    constructor ()
      ensures !present && data == [] && index == NoIndex
    {
      present, data, index := false, [], NoIndex;
    }
  }

  class Ifs {
    const disk: Disk
    var metas: map<int, MetaNode>
    var latest: MetaNode

    function State(): Store
      reads this, disk
    {
      Store(disk.data, disk.index, metas, latest)
    }

    constructor (d: Disk)
      ensures disk == d && State() == Store(d.data, d.index, map[], NO_FILE)
    {
      disk := d;
      metas, latest := map[], NO_FILE;
    }

    /** Loads the index, if it holds more than its count. */
    method Init() returns (code: int)
      requires Whole(disk.index)
      modifies this
      ensures State() == Opened(old(State()))
      ensures old(metas) == map[] ==> State() == Reopened(old(State()))
      ensures code == if disk.index.NoIndex? || disk.index.records == [] then -1 else 0
    {
      if disk.index.NoIndex? || disk.index.records == [] {
        latest := EMPTY;
        return -1;
      }
      var records := disk.index.records;
      var maxId := -1;
      JoinNone(metas);
      for j := 0 to disk.index.size
        invariant metas == old(metas) + Loaded(records, j) && maxId == MaxId(records, j)
        invariant latest == old(latest)
      {
        var node := records[j];
        JoinMore(old(metas), Loaded(records, j), node);
        metas := metas[node.id := node];
        if maxId < node.id {
          maxId := node.id;
        }
      }
      MaxIsLoaded(records, disk.index.size);
      latest := if maxId == -1 then EMPTY else metas[maxId];
      code := 0;
    }

    method Write(bytes: seq<byte>) returns (id: int)
      modifies this, disk
      ensures State() == Written(old(State()), bytes) && id == latest.id && disk.present
    {
      var newOffset := latest.start + latest.length;
      disk.present, disk.data := true, disk.data + bytes;
      id := latest.id + 1;
      var node := MetaNode(id, newOffset, |bytes|);
      metas := metas[id := node];
      latest := node;
    }

    /** Under the invariant: how many bytes were written under the id, and -1 exactly when none were. */
    method GetLength(id: int) returns (length: int)
      ensures length == -1 || id in metas
      ensures forall base, log {:trigger Inv(State(), base, log)} ::
                Inv(State(), base, log) ==> length == if id in log then |log[id]| else -1
    {
      length := if id in metas then metas[id].length else -1;
      forall base, log {:trigger Inv(State(), base, log)} | Inv(State(), base, log)
        ensures length == if id in log then |log[id]| else -1
      {
        if id in log {
          assert Extent(disk.data, metas, base, log, id);
        }
      }
    }

    /**
     `ok` is false without a data file and for an unknown id. Under the
     invariant the bytes are those written under the id.
    */
    method Read(id: int) returns (ok: bool, bytes: seq<byte>)
      ensures ok <==> disk.present && id in metas
      ensures ok ==> bytes == ReadBack(disk.data, metas[id])
      ensures forall base, log {:trigger Inv(State(), base, log)} ::
                Inv(State(), base, log) && ok ==> id in log && bytes == log[id]
    {
      bytes := [];
      if !disk.present || id !in metas {
        return false, bytes;
      }
      ok := true;
      var start, wanted := metas[id].start, metas[id].length;
      if 0 <= start < |disk.data| {
        var left := |disk.data| - start;
        var count := if wanted < left then wanted else left;
        bytes := if count < 0 then [] else disk.data[start..start + count];
      }
      forall base, log {:trigger Inv(State(), base, log)} | Inv(State(), base, log)
        ensures id in log && bytes == log[id]
      {
        ReadsBack(State(), base, log, id);
      }
    }

    /** Writes the count and the extents, in the order the map gives them. */
    method SaveMetadata() returns (ghost records: seq<MetaNode>)
      requires forall id <- metas :: metas[id].id == id
      modifies disk`index
      ensures Lists(records, metas) && State() == Saved(old(State()), records)
    {
      var list: seq<MetaNode> := [];
      var left := metas.Keys;
      while left != {}
        invariant left <= metas.Keys && State() == old(State())
        invariant forall i :: 0 <= i < |list| ==> list[i].id in metas.Keys - left && metas[list[i].id] == list[i]
        invariant forall id <- metas.Keys - left :: Listed(list, id)
        invariant forall i, j :: 0 <= i < j < |list| ==> list[i].id != list[j].id
        decreases |left|
      {
        if forall id :: id !in left {
          assert false;
        }
        var id: int :| id in left;
        ListedMore(list, metas[id]);
        list := list + [metas[id]];
        left := left - {id};
      }
      records := list;
      disk.index := Overwrite(disk.index, list);
    }
  }
}
