/**
 The matchpoint hash table: chained buckets, relinked in place, that refine a finite map.
 */
module MatchTable {

  datatype MpType = BpMemory | BpHardware | WpWrite | WpRead | WpAccess

  datatype Key = Key(kind: MpType, addr: nat)

  const MP_HASH_SIZE := 1021

  class Entry {
    const kind: MpType
    const addr: nat
    const instr: nat
    var next: Entry?

    constructor (kind: MpType, addr: nat, instr: nat, next: Entry?)
      ensures this.kind == kind && this.addr == addr && this.instr == instr && this.next == next
    {
      this.kind, this.addr, this.instr, this.next := kind, addr, instr, next;
    }
  }

  function KeyOf(e: Entry): Key
  {
    Key(e.kind, e.addr)
  }

  /** The i-th node of a chain, or null behind its end. */
  function Nth(c: seq<Entry>, i: nat): Entry?
  {
    if i < |c| then c[i] else null
  }

  /** Every node belongs to bucket h and no two nodes have the same key. */
  ghost predicate Proper(c: seq<Entry>, h: nat)
  {
    && (forall i :: 0 <= i < |c| ==> c[i].addr % MP_HASH_SIZE == h)
    && (forall i, j :: 0 <= i < j < |c| ==> KeyOf(c[i]) != KeyOf(c[j]))
  }

  /** The bindings of one chain. */
  ghost function Bindings(c: seq<Entry>): map<Key, nat>
  {
    if c == [] then map[] else Bindings(c[1..])[KeyOf(c[0]) := c[0].instr]
  }

  /** The chain without its i-th node. */
  ghost function Without(c: seq<Entry>, i: nat): seq<Entry>
    requires i < |c|
  {
    c[..i] + c[i + 1..]
  }

  lemma {:induction false} BoundIffPresent(c: seq<Entry>, k: Key)
    ensures k in Bindings(c) <==> exists i :: 0 <= i < |c| && KeyOf(c[i]) == k
  {
    if c != [] {
      BoundIffPresent(c[1..], k);
      if k in Bindings(c) && KeyOf(c[0]) != k {
        var i :| 0 <= i < |c[1..]| && KeyOf(c[1..][i]) == k;
        assert KeyOf(c[i + 1]) == k;
      }
      if i :| 0 <= i < |c| && KeyOf(c[i]) == k && i > 0 {
        assert KeyOf(c[1..][i - 1]) == k;
      }
    }
  }

  /** With unique keys, each node's own binding is the one its key has. */
  lemma {:induction false} BindsItself(c: seq<Entry>, h: nat, i: nat)
    requires Proper(c, h) && i < |c|
    ensures KeyOf(c[i]) in Bindings(c) && Bindings(c)[KeyOf(c[i])] == c[i].instr
  {
    if i > 0 {
      BindsItself(c[1..], h, i - 1);
    }
  }

  lemma {:induction false} WithoutProper(c: seq<Entry>, h: nat, i: nat)
    requires Proper(c, h) && i < |c|
    ensures Proper(Without(c, i), h)
  {
    var w := Without(c, i);
    forall a, b | 0 <= a < b < |w|
      ensures KeyOf(w[a]) != KeyOf(w[b])
    {
      var a', b' := if a < i then a else a + 1, if b < i then b else b + 1;
      assert w[a] == c[a'] && w[b] == c[b'];
    }
  }

  lemma {:induction false} WithoutTail(c: seq<Entry>, i: nat)
    requires 0 < i < |c|
    ensures Without(c, i) == [c[0]] + Without(c[1..], i - 1)
    ensures Without(c, i)[1..] == Without(c[1..], i - 1)
  {
  }

  lemma {:induction false} RebindCommutes(m: map<Key, nat>, a: Key, v: nat, k: Key)
    requires a != k
    ensures (m - {k})[a := v] == m[a := v] - {k}
  {
  }

  /** Unlinking the i-th node removes its key and nothing else. */
  lemma {:induction false} WithoutUnbinds(c: seq<Entry>, h: nat, i: nat)
    requires Proper(c, h) && i < |c|
    ensures Bindings(Without(c, i)) == Bindings(c) - {KeyOf(c[i])}
  {
    var k := KeyOf(c[i]);
    if i == 0 {
      assert Without(c, 0) == c[1..];
      BoundIffPresent(c[1..], k);
      assert k !in Bindings(c[1..]);
      assert Bindings(c) - {k} == Bindings(c[1..]);
    } else {
      assert c[1..][i - 1] == c[i];
      WithoutUnbinds(c[1..], h, i - 1);
      WithoutTail(c, i);
      RebindCommutes(Bindings(c[1..]), KeyOf(c[0]), c[0].instr, k);
    }
  }

  /** The chains together stand for the map m. */
  ghost predicate Means(chains: seq<seq<Entry>>, m: map<Key, nat>)
    requires |chains| == MP_HASH_SIZE
  {
    forall k: Key :: Agree(m, Bindings(chains[k.addr % MP_HASH_SIZE]), k)
  }

  /** Both maps say the same of k. */
  ghost predicate Agree(m: map<Key, nat>, b: map<Key, nat>, k: Key)
  {
    (k in m <==> k in b) && (k in m ==> m[k] == b[k])
  }

  lemma {:induction false} AddMeans(chains: seq<seq<Entry>>, m: map<Key, nat>, h: nat, e: Entry)
    requires |chains| == MP_HASH_SIZE && Means(chains, m)
    requires e.addr % MP_HASH_SIZE == h && KeyOf(e) !in m
    ensures Means(chains[h := [e] + chains[h]], m[KeyOf(e) := e.instr])
  {
    var c := [e] + chains[h];
    assert c[1..] == chains[h];
    forall k: Key
      ensures Agree(m[KeyOf(e) := e.instr], Bindings(chains[h := c][k.addr % MP_HASH_SIZE]), k)
    {
      assert Agree(m, Bindings(chains[k.addr % MP_HASH_SIZE]), k);
    }
  }

  lemma {:induction false} AddProper(c: seq<Entry>, h: nat, e: Entry)
    requires Proper(c, h) && e.addr % MP_HASH_SIZE == h && KeyOf(e) !in Bindings(c)
    ensures Proper([e] + c, h)
  {
    BoundIffPresent(c, KeyOf(e));
  }

  lemma {:induction false} DeleteMeans(chains: seq<seq<Entry>>, m: map<Key, nat>, h: nat, i: nat)
    requires |chains| == MP_HASH_SIZE && Means(chains, m)
    requires h < MP_HASH_SIZE && Proper(chains[h], h) && i < |chains[h]|
    ensures Means(chains[h := Without(chains[h], i)], m - {KeyOf(chains[h][i])})
  {
    var c, d := chains[h], KeyOf(chains[h][i]);
    WithoutUnbinds(c, h, i);
    forall k: Key
      ensures Agree(m - {d}, Bindings(chains[h := Without(c, i)][k.addr % MP_HASH_SIZE]), k)
    {
      assert Agree(m, Bindings(chains[k.addr % MP_HASH_SIZE]), k);
    }
  }

  ghost function Nodes(chains: seq<seq<Entry>>): set<Entry>
  {
    set h, i | 0 <= h < |chains| && 0 <= i < |chains[h]| :: chains[h][i]
  }

  lemma {:induction false} AddNodes(chains: seq<seq<Entry>>, h: nat, e: Entry)
    requires h < |chains|
    ensures Nodes(chains[h := [e] + chains[h]]) <= Nodes(chains) + {e}
  {
  }

  /** The neighbours around the gap. */
  lemma {:induction false} WithoutNth(c: seq<Entry>, i: nat)
    requires i < |c|
    ensures forall j :: 0 <= j <= |c| - 1 ==> Nth(Without(c, i), j) == Nth(c, if j < i then j else j + 1)
  {
  }

  lemma {:induction false} WithoutMembers(c: seq<Entry>, h: nat, i: nat, e: Entry)
    requires Proper(c, h) && i < |c|
    ensures e in Without(c, i) <==> e in c && e != c[i]
  {
    if e in c && e != c[i] {
      var j :| 0 <= j < |c| && c[j] == e;
      assert Without(c, i)[if j < i then j else j - 1] == e;
    }
  }

  ghost predicate AllProper(chains: seq<seq<Entry>>)
  {
    forall h :: 0 <= h < |chains| ==> Proper(chains[h], h)
  }

  lemma {:induction false} InNodes(chains: seq<seq<Entry>>, e: Entry)
    requires AllProper(chains) && |chains| == MP_HASH_SIZE
    ensures e in Nodes(chains) <==> e in chains[e.addr % MP_HASH_SIZE]
  {
  }

  /** Exactly one node leaves. */
  lemma {:induction false} DeleteNodes(chains: seq<seq<Entry>>, h: nat, i: nat)
    requires |chains| == MP_HASH_SIZE && AllProper(chains) && h < MP_HASH_SIZE && i < |chains[h]|
    ensures Nodes(chains[h := Without(chains[h], i)]) == Nodes(chains) - {chains[h][i]}
    ensures chains[h][i] in Nodes(chains)
  {
    var after := chains[h := Without(chains[h], i)];
    WithoutProper(chains[h], h, i);
    forall e: Entry
      ensures e in Nodes(after) <==> e in Nodes(chains) && e != chains[h][i]
    {
      InNodes(chains, e);
      InNodes(after, e);
      WithoutMembers(chains[h], h, i, e);
    }
  }

  class Table {
    const buckets: array<Entry?>

    /** The nodes of every bucket in link order, and the map they stand for. */
    ghost var chains: seq<seq<Entry>>
    ghost var contents: map<Key, nat>

    ghost function Entries(): set<Entry>
      reads this
    {
      Nodes(chains)
    }

    /** The links in memory are those of cs. */
    ghost predicate Chained(cs: seq<seq<Entry>>)
      reads this, buckets, Nodes(cs)
    {
      && buckets.Length == |cs|
      && (forall h :: 0 <= h < |cs| ==> buckets[h] == Nth(cs[h], 0))
      && (forall h, i :: 0 <= h < |cs| && 0 <= i < |cs[h]| ==> cs[h][i].next == Nth(cs[h], i + 1))
    }

    ghost predicate Valid()
      reads this, buckets, Entries()
    {
      |chains| == MP_HASH_SIZE && AllProper(chains) && Chained(chains) && Means(chains, contents)
    }

    constructor ()
      ensures Valid() && Entries() == {} && contents == map[]
      ensures fresh(buckets)
    {
      buckets := new Entry?[MP_HASH_SIZE];
      new;
      Init();
    }

    method Init()
      requires buckets.Length == MP_HASH_SIZE
      modifies this, buckets
      ensures Valid() && Entries() == {} && contents == map[]
    {
      for i := 0 to MP_HASH_SIZE
        invariant forall h :: 0 <= h < i ==> buckets[h] == null
      {
        buckets[i] := null;
      }
      chains, contents := seq(MP_HASH_SIZE, _ => []), map[];
    }

    /** Walks chain h to the node with key k: its position, the node before it and the node. */
    method Search(h: nat, k: Key) returns (ghost i: nat, prev: Entry?, curr: Entry?)
      requires Valid() && h < MP_HASH_SIZE
      ensures i <= |chains[h]|
      ensures curr == Nth(chains[h], i)
      ensures prev == if i == 0 then null else chains[h][i - 1]
      ensures curr != null ==> KeyOf(curr) == k
      ensures curr == null <==> k !in Bindings(chains[h])
    {
      BoundIffPresent(chains[h], k);
      i, prev, curr := Walk(chains[h], buckets[h], k);
    }

    /** The walk itself, along the links of the chain c. */
    static method Walk(ghost c: seq<Entry>, first: Entry?, k: Key) returns (ghost i: nat, prev: Entry?, curr: Entry?)
      requires first == Nth(c, 0) && forall j :: 0 <= j < |c| ==> c[j].next == Nth(c, j + 1)
      ensures i <= |c| && curr == Nth(c, i) && prev == if i == 0 then null else c[i - 1]
      ensures curr != null ==> KeyOf(curr) == k
      ensures curr == null ==> forall j :: 0 <= j < |c| ==> KeyOf(c[j]) != k
    {
      i, prev, curr := 0, null, first;
      while curr != null
        invariant i <= |c| && curr == Nth(c, i)
        invariant prev == if i == 0 then null else c[i - 1]
        invariant forall j :: 0 <= j < i ==> KeyOf(c[j]) != k
        decreases |c| - i
      {
        if k.kind == curr.kind && k.addr == curr.addr {
          return;
        }
        i, prev, curr := i + 1, curr, curr.next;
      }
    }

    lemma {:induction false} NextNode(h: nat, i: nat)
      requires Valid() && h < MP_HASH_SIZE && i < |chains[h]|
      ensures chains[h][i].next == Nth(chains[h], i + 1)
    {
    }

    method Lookup(kind: MpType, addr: nat) returns (e: Entry?)
      requires Valid()
      ensures e == null <==> Key(kind, addr) !in contents
      ensures e != null ==> e in Entries() && KeyOf(e) == Key(kind, addr) && e.instr == contents[KeyOf(e)]
    {
      var h, k := addr % MP_HASH_SIZE, Key(kind, addr);
      ghost var i;
      var prev;
      i, prev, e := Search(h, k);
      if e != null {
        BindsItself(chains[h], h, i);
      }
    }

    /** Adds at the head of the chain; an entry that is already there is kept. */
    method Add(kind: MpType, addr: nat, instr: nat)
      requires Valid()
      modifies this, buckets
      ensures Valid() && fresh(Entries() - old(Entries()))
      ensures Key(kind, addr) in old(contents) ==>
        contents == old(contents) && chains == old(chains)
      ensures Key(kind, addr) !in old(contents) ==>
        contents == old(contents)[Key(kind, addr) := instr]
    {
      var h, k := addr % MP_HASH_SIZE, Key(kind, addr);
      ghost var i;
      var prev, curr;
      i, prev, curr := Search(h, k);
      assert Agree(contents, Bindings(chains[h]), k);
      if curr == null {
        var e := new Entry(kind, addr, instr, buckets[h]);
        PutFirst(h, e);
      }
    }

    method PutFirst(h: nat, e: Entry)
      requires Valid() && h == e.addr % MP_HASH_SIZE && e.next == buckets[h]
      requires KeyOf(e) !in contents && KeyOf(e) !in Bindings(chains[h])
      modifies this, buckets
      ensures Valid()
      ensures Entries() <= old(Entries()) + {e}
      ensures contents == old(contents)[KeyOf(e) := e.instr]
    {
      AddProper(chains[h], h, e);
      AddMeans(chains, contents, h, e);
      AddNodes(chains, h, e);
      ghost var cs := chains[h := [e] + chains[h]];
      LinkFirst(h, e);
      chains, contents := cs, contents[KeyOf(e) := e.instr];
    }

    method LinkFirst(h: nat, e: Entry)
      requires Valid() && h < MP_HASH_SIZE && e.next == buckets[h]
      modifies buckets
      ensures Chained(chains[h := [e] + chains[h]])
    {
      buckets[h] := e;
    }

    /** Takes the i-th node of chain h out of the links. */
    method Unlink(h: nat, ghost i: nat, prev: Entry?, e: Entry)
      requires Valid() && h < MP_HASH_SIZE && i < |chains[h]|
      requires e == chains[h][i] && prev == if i == 0 then null else chains[h][i - 1]
      modifies buckets, prev
      ensures Chained(chains[h := Without(chains[h], i)])
    {
      if prev == null {
        UnlinkFirst(h, e);
      } else {
        UnlinkBehind(h, i, prev, e);
      }
    }

    method UnlinkFirst(h: nat, e: Entry)
      requires Valid() && h < MP_HASH_SIZE && chains[h] != [] && e == chains[h][0]
      modifies buckets
      ensures Chained(chains[h := Without(chains[h], 0)])
    {
      ghost var cs: seq<seq<Entry>> := chains[h := Without(chains[h], 0)];
      WithoutFirst(h);
      NextNode(h, 0);
      buckets[h] := e.next;
      assert forall g :: 0 <= g < |cs| ==> buckets[g] == Nth(cs[g], 0);
    }

    /** The links behind the first node are as they should be without it. */
    lemma {:induction false} WithoutFirst(h: nat)
      requires Valid() && h < MP_HASH_SIZE && chains[h] != []
      ensures var cs: seq<seq<Entry>> := chains[h := Without(chains[h], 0)];
        && cs[h] == chains[h][1..] && Nodes(cs) <= Nodes(chains)
        && forall g, j :: 0 <= g < |cs| && 0 <= j < |cs[g]| ==> cs[g][j].next == Nth(cs[g], j + 1)
    {
      var cs: seq<seq<Entry>> := chains[h := Without(chains[h], 0)];
      assert cs[h] == chains[h][1..];
      forall g, j | 0 <= g < |cs| && 0 <= j < |cs[g]|
        ensures cs[g][j].next == Nth(cs[g], j + 1) && cs[g][j] in chains[g]
      {
        assert g == h ==> cs[g][j] == chains[h][j + 1];
      }
    }

    method UnlinkBehind(h: nat, ghost i: nat, prev: Entry, e: Entry)
      requires Valid() && h < MP_HASH_SIZE && 0 < i < |chains[h]|
      requires prev == chains[h][i - 1] && e == chains[h][i]
      modifies prev
      ensures Chained(chains[h := Without(chains[h], i)])
    {
      ghost var cs: seq<seq<Entry>> := chains[h := Without(chains[h], i)];
      WithoutNth(chains[h], i);
      NodesApart(h, i - 1);
      NextNode(h, i);
      prev.next := e.next;
      forall g, j | 0 <= g < |cs| && 0 <= j < |cs[g]|
        ensures cs[g][j].next == Nth(cs[g], j + 1)
      {
        if g == h {
          assert cs[h][j] == chains[h][if j < i then j else j + 1];
        }
      }
    }

    lemma {:induction false} NodesApart(h: nat, i: nat)
      requires Valid() && h < MP_HASH_SIZE && i < |chains[h]|
      ensures forall g, j :: 0 <= g < MP_HASH_SIZE && 0 <= j < |chains[g]| && chains[g][j] == chains[h][i] ==>
        g == h && i == j
    {
    }

    /** Unlinks the entry, wherever it is in its chain; the links before and behind it are kept. */
    method Delete(kind: MpType, addr: nat) returns (e: Entry?)
      requires Valid()
      modifies this, buckets, Entries()
      ensures Valid()
      ensures e == null <==> Key(kind, addr) !in old(contents)
      ensures e == null ==> contents == old(contents) && chains == old(chains)
      ensures e != null ==> KeyOf(e) == Key(kind, addr) && e.instr == old(contents)[KeyOf(e)]
      ensures e != null ==> contents == old(contents) - {KeyOf(e)}
      ensures e != null ==> e in old(Entries()) && Entries() == old(Entries()) - {e}
    {
      var h, k := addr % MP_HASH_SIZE, Key(kind, addr);
      ghost var i;
      var prev;
      i, prev, e := Search(h, k);
      assert Agree(contents, Bindings(chains[h]), k);
      if e != null {
        BindsItself(chains[h], h, i);
        DeleteNodes(chains, h, i);
        RemoveAt(h, i, prev, e);
      }
    }

    method RemoveAt(h: nat, ghost i: nat, prev: Entry?, e: Entry)
      requires Valid() && h < MP_HASH_SIZE && i < |chains[h]|
      requires e == chains[h][i] && prev == if i == 0 then null else chains[h][i - 1]
      modifies this, buckets, prev
      ensures Valid()
      ensures chains == old(chains)[h := Without(old(chains[h]), i)]
      ensures contents == old(contents) - {KeyOf(e)}
    {
      DeleteMeans(chains, contents, h, i);
      WithoutProper(chains[h], h, i);
      Unlink(h, i, prev, e);
      chains, contents := chains[h := Without(chains[h], i)], contents - {KeyOf(e)};
    }
  }
}
