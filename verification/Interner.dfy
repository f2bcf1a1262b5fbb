/** Interning: equal contents get equal ids, and an id keeps resolving to its contents. */
module Interner {
  import opened Values
  import opened ListsOfLists

  type Bytes = seq<nat>

  /** A hash table of ids: each hash has a bucket. */
  type Table = map<nat, seq<nat>>

  function Bucket(t: Table, h: nat): seq<nat> {
    if h in t then t[h] else []
  }

  /** Every id is in the bucket of the hash of its contents, and no two ids have the same contents. */
  ghost predicate Consistent(hash: Bytes -> nat, contents: seq<Bytes>, t: Table) {
    && (forall h, k | h in t && 0 <= k < |t[h]| :: t[h][k] < |contents| && hash(contents[t[h][k]]) == h)
    && (forall i | 0 <= i < |contents| :: i in Bucket(t, hash(contents[i])))
    && Distinct(contents)
  }

  ghost predicate Distinct(contents: seq<Bytes>) {
    forall i, j | 0 <= i < j < |contents| :: contents[i] != contents[j]
  }

  lemma InsertConsistent(hash: Bytes -> nat, contents: seq<Bytes>, t: Table, b: Bytes)
    requires Consistent(hash, contents, t) && b !in contents
    ensures Consistent(hash, contents + [b], t[hash(b) := Bucket(t, hash(b)) + [|contents|]])
  {
    var c', n := contents + [b], |contents|;
    var t' := t[hash(b) := Bucket(t, hash(b)) + [n]];
    forall i | 0 <= i < |c'| ensures i in Bucket(t', hash(c'[i])) {
      if i < n {
        assert c'[i] == contents[i] && i in Bucket(t, hash(contents[i]));
      } else {
        assert Bucket(t', hash(b))[|Bucket(t, hash(b))|] == n;
      }
    }
    forall i, j | 0 <= i < j < |c'| ensures c'[i] != c'[j] {
      assert c'[i] == contents[i] && contents[i] in contents;
    }
  }

  /** Interning one after the other, as a function: the contents after a run, and the id each call gave. */
  function IndexOf(contents: seq<Bytes>, b: Bytes): (r: Option<nat>)
    ensures r.Some? ==> r.value < |contents| && contents[r.value] == b
    ensures r.None? <==> b !in contents
  {
    if contents == [] then None
    else if contents[0] == b then Some(0)
    else
      match IndexOf(contents[1..], b)
      case None => None
      case Some(i) => Some(i + 1)
  }

  lemma {:induction false} OnlyIndex(contents: seq<Bytes>, i: nat, b: Bytes)
    requires Distinct(contents) && i < |contents| && contents[i] == b
    ensures IndexOf(contents, b) == Some(i)
  {
    assert b in contents;
    var j := IndexOf(contents, b).value;
  }

  /** What is in no slot of its own bucket is nowhere. */
  lemma NotInBucket(hash: Bytes -> nat, contents: seq<Bytes>, t: Table, b: Bytes)
    requires Consistent(hash, contents, t)
    requires forall k | 0 <= k < |Bucket(t, hash(b))| ::
               Bucket(t, hash(b))[k] < |contents| && contents[Bucket(t, hash(b))[k]] != b
    ensures b !in contents
  {
    forall i | 0 <= i < |contents| ensures contents[i] != b {
      assert i in Bucket(t, hash(contents[i]));
    }
  }

  function Added(contents: seq<Bytes>, b: Bytes): seq<Bytes> {
    if b in contents then contents else contents + [b]
  }

  function IdOf(contents: seq<Bytes>, b: Bytes): (r: nat)
    ensures r < |Added(contents, b)| && Added(contents, b)[r] == b
  {
    if b in contents then IndexOf(contents, b).value else |contents|
  }

  function AfterRun(contents: seq<Bytes>, calls: seq<Bytes>): seq<Bytes>
    decreases |calls|
  {
    if calls == [] then contents else AfterRun(Added(contents, calls[0]), calls[1..])
  }

  function Ids(contents: seq<Bytes>, calls: seq<Bytes>): (r: seq<nat>)
    ensures |r| == |calls|
    decreases |calls|
  {
    if calls == [] then [] else [IdOf(contents, calls[0])] + Ids(Added(contents, calls[0]), calls[1..])
  }

  lemma {:induction false} RunExtends(contents: seq<Bytes>, calls: seq<Bytes>)
    requires Distinct(contents)
    ensures contents <= AfterRun(contents, calls) && Distinct(AfterRun(contents, calls))
    decreases |calls|
  {
    if calls != [] {
      AddedDistinct(contents, calls[0]);
      RunExtends(Added(contents, calls[0]), calls[1..]);
    }
  }

  lemma AddedDistinct(contents: seq<Bytes>, b: Bytes)
    requires Distinct(contents)
    ensures Distinct(Added(contents, b))
  {
    forall i, j | 0 <= i < j < |Added(contents, b)| ensures Added(contents, b)[i] != Added(contents, b)[j] {
      assert contents[i] in contents;
    }
  }

  /** Every id a run hands out resolves to the bytes it was given for, at the end of the run and so ever after. */
  lemma {:induction false} IdsResolve(contents: seq<Bytes>, calls: seq<Bytes>, k: nat)
    requires Distinct(contents) && k < |calls|
    ensures Ids(contents, calls)[k] < |AfterRun(contents, calls)|
    ensures AfterRun(contents, calls)[Ids(contents, calls)[k]] == calls[k]
    decreases |calls|
  {
    var first := Added(contents, calls[0]);
    AddedDistinct(contents, calls[0]);
    RunExtends(first, calls[1..]);
    if k > 0 { IdsResolve(first, calls[1..], k - 1); }
  }

  /** Over every run, two calls get the same id exactly if they were given the same bytes. */
  lemma {:induction false} StableBijection(contents: seq<Bytes>, calls: seq<Bytes>, j: nat, k: nat)
    requires Distinct(contents) && j < |calls| && k < |calls|
    ensures Ids(contents, calls)[j] == Ids(contents, calls)[k] <==> calls[j] == calls[k]
  {
    hide Ids, AfterRun;
    IdsResolve(contents, calls, j);
    IdsResolve(contents, calls, k);
    RunExtends(contents, calls);
  }

  class BytesInterner {
    const bytes: ListOfLists<nat>
    var table: Table
    const hash: Bytes -> nat

    ghost predicate Valid()
      reads this, bytes
    {
      bytes.Valid() && Consistent(hash, bytes.Contents(), table)
    }

    constructor (hash: Bytes -> nat)
      ensures Valid() && bytes.Contents() == [] && fresh(bytes) && this.hash == hash
    {
      bytes := new ListOfLists();
      table := map[];
      this.hash := hash;
    }

    /** The id with these contents, looked for in one bucket only. */
    method Find(b: Bytes) returns (r: Option<nat>)
      requires Valid()
      ensures r == IndexOf(bytes.Contents(), b)
    {
      ghost var contents := bytes.Contents();
      var bucket := Bucket(table, hash(b));
      hide Lists, IndexOf;
      for k := 0 to |bucket|
        invariant forall i | 0 <= i < k :: bucket[i] < |contents| && contents[bucket[i]] != b
      {
        var c := bytes.Get(bucket[k]);
        if c == Some(b) {
          OnlyIndex(contents, bucket[k], b);
          return Some(bucket[k]);
        }
      }
      NotInBucket(hash, contents, table, b);
      r := None;
    }

    /** Panics only when the storage is full. */
    method Intern(b: Bytes) returns (id: Option<nat>)
      requires Valid()
      modifies this, bytes
      ensures id.None? <==> b !in old(bytes.Contents()) && old(|bytes.values|) + |b| > U32_MAX
      ensures id.Some? ==> Valid() && id.value == IdOf(old(bytes.Contents()), b)
                           && bytes.Contents() == Added(old(bytes.Contents()), b)
    {
      var found := Find(b);
      if found.Some? { return found; }
      InsertConsistent(hash, bytes.Contents(), table, b);
      id := bytes.PushSlice(b);
      if id.Some? {
        table := table[hash(b) := Bucket(table, hash(b)) + [id.value]];
      }
    }

    method Resolve(id: nat) returns (b: Option<Bytes>)
      requires Valid()
      ensures b == if id < |bytes.Contents()| then Some(bytes.Contents()[id]) else None
    {
      b := bytes.Get(id);
    }
  }
}
