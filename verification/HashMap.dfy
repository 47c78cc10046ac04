/**
 A hash table with chained buckets: whatever happens to the chains when it grows, or fails to grow, it stays the same
 finite map.
 */
module HashMaps {
  import opened Bits

  /** Keys are strings; a value is as many bytes as were given. */
  type Key = seq<Octet>
  type Value = seq<Octet>

  function Hash(key: Key): bv32 {
    if key == [] then 5381
    else
      var h := Hash(key[..|key| - 1]);
      ((h << 5) + h) ^ (key[|key| - 1] as bv32)
  }

  /** Sizes that the table grows through. */
  predicate IsSize(n: nat) {
    n == 4 || n == 8 || n == 16 || n == 32 || n == 64 || n == 128 || n == 256 || n == 512
  }

  /** A table with as many nodes as buckets grows before the next node, up to its limit. */
  predicate MustGrow(nnodes: nat, nbuckets: nat) {
    nnodes >= nbuckets && nbuckets < 512
  }

  function Grown(nbuckets: nat): nat {
    if nbuckets > 0 then 2 * nbuckets else 4
  }

  /** Below its limit the table never holds more nodes than buckets. */
  predicate IsRoomy(nnodes: nat, nbuckets: nat) {
    nnodes <= nbuckets || nbuckets >= 512
  }

  /** Setting a key keeps it so: the table grows in time, and only when it is full. */
  lemma StaysRoomy(contents: map<Key, Value>, key: Key, value: Value, nbuckets: nat, same: bool, granted: bool)
    requires IsRoomy(|contents|, nbuckets) && (same ==> key in contents)
    ensures var full := MustGrow(|contents - {key}|, nbuckets);
            var now := if !same && full && granted then Grown(nbuckets) else nbuckets;
            && IsRoomy(|if same || granted || !full then contents[key := value] else contents - {key}|, now)
            && (now != nbuckets ==> |contents - {key}| >= nbuckets)
  {
    var without := contents - {key};
    assert without.Keys == contents.Keys - {key};
    assert contents[key := value].Keys == without.Keys + {key};
  }

  /** `hash & (n - 1)` */
  function Slot(hash: bv32, n: nat): (b: nat)
    requires IsSize(n)
    ensures b < n
  {
    if n == 4 then (hash & 3) as nat else if n == 8 then (hash & 7) as nat else if n == 16 then (hash & 15) as nat
    else if n == 32 then (hash & 31) as nat else if n == 64 then (hash & 63) as nat else if n == 128 then (hash & 127) as nat
    else if n == 256 then (hash & 255) as nat else (hash & 511) as nat
  }

  class Node {
    const key: Key
    const hash: bv32
    var value: Value
    var next: Node?

    constructor (key: Key, value: Value)
      ensures this.key == key && this.hash == Hash(key) && this.value == value && next == null
    {
      this.key, this.value, next := key, value, null;
      hash := Hash(key);
    }
  }

  /** The nodes that follow each other from head on. */
  ghost predicate Linked(head: Node?, chain: seq<Node>)
    reads chain
  {
    && head == NodeAt(chain, 0)
    && forall i :: 0 <= i < |chain| ==> chain[i].next == NodeAt(chain, i + 1)
  }

  /** The i-th node, or nothing beyond the end. */
  ghost function NodeAt(chain: seq<Node>, i: nat): Node? {
    if i < |chain| then chain[i] else null
  }

  predicate Distinct(chain: seq<Node>) {
    forall i, j :: 0 <= i < j < |chain| ==> chain[i].key != chain[j].key
  }

  /** Every node is in the bucket that its key belongs to. */
  ghost predicate Placed(chains: seq<seq<Node>>) {
    && (chains == [] || IsSize(|chains|))
    && forall b :: 0 <= b < |chains| ==>
         Distinct(chains[b]) && forall i :: 0 <= i < |chains[b]| ==>
           chains[b][i].hash == Hash(chains[b][i].key) && Slot(chains[b][i].hash, |chains|) == b
  }

  ghost predicate InChain(chain: seq<Node>, key: Key) {
    exists i :: 0 <= i < |chain| && chain[i].key == key
  }

  /** The chain that a key belongs to. */
  ghost function ChainOf(chains: seq<seq<Node>>, key: Key): seq<Node>
    requires chains == [] || IsSize(|chains|)
  {
    if chains == [] then [] else chains[Slot(Hash(key), |chains|)]
  }

  ghost function Nodes(chains: seq<seq<Node>>): set<Node> {
    set b, i | 0 <= b < |chains| && 0 <= i < |chains[b]| :: chains[b][i]
  }

  /** Every node holds what the map says of its key. */
  ghost predicate Values(nodes: set<Node>, contents: map<Key, Value>)
    reads nodes
  {
    forall n :: n in nodes ==> n.key in contents && contents[n.key] == n.value
  }

  /** Every key of the map is in the chain where it belongs. */
  ghost predicate Covered(chains: seq<seq<Node>>, contents: map<Key, Value>)
    requires chains == [] || IsSize(|chains|)
  {
    forall k :: k in contents ==> InChain(ChainOf(chains, k), k)
  }

  class HashMap {
    var buckets: array<Node?>
    var nbuckets: nat
    var nnodes: nat

    /** The nodes of every bucket, all nodes, and the map that they stand for. */
    ghost var chains: seq<seq<Node>>
    ghost var nodes: set<Node>
    ghost var contents: map<Key, Value>

    ghost predicate AllLinked()
      reads this`buckets, this`chains, this`nodes, buckets, nodes
    {
      && |chains| <= buckets.Length
      && (forall b, i :: 0 <= b < |chains| && 0 <= i < |chains[b]| ==> chains[b][i] in nodes)
      && forall b :: 0 <= b < |chains| ==> Linked(buckets[b], chains[b])
    }

    ghost predicate Valid()
      reads this, buckets, nodes
    {
      && |chains| == nbuckets == buckets.Length && Placed(chains) && AllLinked() && nodes == Nodes(chains)
      && Values(nodes, contents) && Covered(chains, contents) && nnodes == |contents|
    }

    constructor ()
      ensures Valid() && contents == map[] && fresh(buckets) && nodes == {}
    {
      buckets := new Node?[0];
      nbuckets, nnodes := 0, 0;
      chains, nodes, contents := [], {}, map[];
    }

    /** Puts a node at the head of its bucket. */
    method AddNode(node: Node)
      requires Placed(chains) && AllLinked() && |chains| == nbuckets == buckets.Length && IsSize(nbuckets)
      requires node !in nodes && node.hash == Hash(node.key) && !InChain(ChainOf(chains, node.key), node.key)
      modifies this`chains, this`nodes, buckets, node`next
      ensures Placed(chains) && AllLinked() && |chains| == nbuckets
      ensures nodes == old(nodes) + {node}
      ensures var b := Slot(node.hash, nbuckets); chains == old(chains)[b := [node] + old(chains)[b]]
    {
      hide *;
      PlacedMeans(chains);
      LinkedMeans();
      var n := Slot(node.hash, nbuckets);
      ghost var before := chains;
      label start:
      node.next := buckets[n];
      buckets[n] := node;
      chains := chains[n := [node] + chains[n]];
      nodes := nodes + {node};
      forall b | 0 <= b < |chains| ensures Linked(buckets[b], chains[b]) {
        assert old@start(Linked(buckets[b], before[b]));
        assert node !in before[b];
        assert Linked(old@start(buckets[b]), before[b]);
        if b == n {
          LinkedCons(node, before[n]);
        }
      }
      PlacedAdd(before, node);
      LinkedIs(before, n, node);
    }

    lemma LinkedMeans()
      requires AllLinked()
      ensures |chains| <= buckets.Length
      ensures forall b, i :: 0 <= b < |chains| && 0 <= i < |chains[b]| ==> chains[b][i] in nodes
      ensures forall b :: 0 <= b < |chains| ==> Linked(buckets[b], chains[b]) && forall node :: node in chains[b] ==> node in nodes
    {
      hide Linked;
    }

    lemma LinkedIs(before: seq<seq<Node>>, n: nat, node: Node)
      requires n < |before| <= buckets.Length && chains == before[n := [node] + before[n]] && node in nodes
      requires forall b, i :: 0 <= b < |before| && 0 <= i < |before[b]| ==> before[b][i] in nodes
      requires forall b :: 0 <= b < |chains| ==> Linked(buckets[b], chains[b])
      ensures AllLinked()
    {
      hide Linked;
    }

    // ---- Looking up ----

    /** The node with the key, its bucket, and the node before it in the chain, if there is one. */
    method Find(key: Key) returns (b: nat, prev: Node?, node: Node?, ghost i: nat)
      requires Valid()
      ensures node == null <==> key !in contents
      ensures node != null ==>
                && b < |chains| && i < |chains[b]| && node == chains[b][i] && node.key == key
                && (if i == 0 then prev == null else prev == chains[b][i - 1])
    {
      hide *;
      b, prev, node, i := 0, null, null, 0;
      ValidMeans();
      if nbuckets == 0 {
        NothingHeld();
        return;
      }
      LookedUp(key);
      var hash := Hash(key);
      b := Slot(hash, nbuckets);
      ghost var chain := chains[b];
      node := buckets[b];
      Walk(chain, 0);
      while node != null
        invariant i <= |chain| && node == NodeAt(chain, i) && (node != null ==> i < |chain| && node == chain[i])
        invariant if i == 0 then prev == null else prev == chain[i - 1]
        invariant forall k :: 0 <= k < i ==> chain[k].key != key
        decreases |chain| - i
      {
        if node.hash == hash && node.key == key {
          KeyInChain(chain, i, key);
          return;
        }
        prev := node;
        node := node.next;
        i := i + 1;
        Walk(chain, i);
      }
      Walk(chain, i);
      NoKeyInChain(chain, key);
    }

    lemma ValidMeans()
      requires Valid()
      ensures |chains| == nbuckets == buckets.Length && Placed(chains) && AllLinked() && nodes == Nodes(chains)
      ensures (chains == [] || IsSize(nbuckets)) && Values(nodes, contents) && Covered(chains, contents) && nnodes == |contents|
    {
      hide AllLinked, Values, Covered, Nodes, IsSize;
    }

    lemma NothingHeld()
      requires Valid() && nbuckets == 0
      ensures forall k: Key :: k !in contents
    {
    }

    lemma LookedUp(key: Key)
      requires Valid() && nbuckets > 0
      ensures IsSize(nbuckets) && Slot(Hash(key), nbuckets) < |chains| && Linked(buckets[Slot(Hash(key), nbuckets)], chains[Slot(Hash(key), nbuckets)])
      ensures key in contents <==> InChain(chains[Slot(Hash(key), nbuckets)], key)
      ensures forall i :: 0 <= i < |chains[Slot(Hash(key), nbuckets)]| ==>
                var node := chains[Slot(Hash(key), nbuckets)][i];
                node in nodes && node.hash == Hash(node.key) && node.next == NodeAt(chains[Slot(Hash(key), nbuckets)], i + 1)
      ensures buckets[Slot(Hash(key), nbuckets)] == NodeAt(chains[Slot(Hash(key), nbuckets)], 0)
    {
      hide Hash, Slot;
    }

    method Get(key: Key) returns (found: bool, value: Value)
      requires Valid()
      ensures found == (key in contents) && (found ==> value == contents[key])
    {
      hide *;
      var b, prev, node, i := Find(key);
      if node == null {
        return false, [];
      }
      HeldAt(b, i);
      return true, node.value;
    }

    lemma HeldAt(b: nat, i: nat)
      requires Valid() && b < |chains| && i < |chains[b]|
      ensures chains[b][i].key in contents && contents[chains[b][i].key] == chains[b][i].value && chains[b][i] in nodes
    {
      hide Hash, Slot, Linked, Covered;
    }

    // ---- Removing ----

    /** Takes the node with the key out of its chain. */
    method Remove(key: Key)
      requires Valid()
      modifies this`nnodes, this`chains, this`nodes, this`contents, buckets, nodes
      ensures Valid() && contents == old(contents) - {key} && nodes <= old(nodes)
    {
      hide *;
      var b, prev, node, i := Find(key);
      if node == null {
        KeyAbsent(contents, key);
        return;
      }
      ghost var before, had, all := chains, contents, nodes;
      ValidMeans();
      ValuesMean(all, had);
      KeyPresent(had, key);
      Unlink(b, prev, node, i);
      ValuesAre(all, had);
      chains := before[b := before[b][..i] + before[b][i + 1..]];
      nodes := nodes - {node};
      contents := contents - {key};
      nnodes := nnodes - 1;
      PlacedCut(before, b, i);
      NodesCut(before, b, i);
      ValuesCut(before, had, b, i);
      CoveredCut(before, had, b, i);
      AllLinkedIs();
      ValidIs();
    }

    lemma AllLinkedIs()
      requires |chains| == buckets.Length && nodes == Nodes(chains)
      requires forall c :: 0 <= c < |chains| ==> Linked(buckets[c], chains[c])
      ensures AllLinked()
    {
      hide Linked;
    }

    lemma ValidIs()
      requires |chains| == nbuckets == buckets.Length && Placed(chains) && AllLinked() && nodes == Nodes(chains)
      requires (chains == [] || IsSize(nbuckets)) && Values(nodes, contents) && Covered(chains, contents) && nnodes == |contents|
      ensures Valid()
    {
      hide AllLinked, Values, Covered, Nodes, IsSize, Placed;
    }

    method Unlink(b: nat, prev: Node?, node: Node, ghost i: nat)
      requires b < |chains| == buckets.Length && i < |chains[b]| && node == chains[b][i] && Placed(chains) && AllLinked()
      requires if i == 0 then prev == null else prev == chains[b][i - 1]
      modifies buckets, nodes`next
      ensures Linked(buckets[b], chains[b][..i] + chains[b][i + 1..])
      ensures forall c :: 0 <= c < |chains| && c != b ==> Linked(buckets[c], chains[c])
    {
      hide *;
      LinkedMeans();
      ghost var chain := chains[b];
      PlacedAt(chains, b);
      LinkedNexts(buckets[b], chain);
      label start:
      if prev == null {
        buckets[b] := node.next;
      } else {
        prev.next := node.next;
      }
      forall c | 0 <= c < |chains| && c != b ensures Linked(buckets[c], chains[c]) {
        assert old@start(Linked(buckets[c], chains[c]));
        if prev != null {
          NotInOther(chains, b, i - 1, c);
        }
      }
      forall k | 0 <= k < |chain| && k != i - 1 ensures chain[k].next == NodeAt(chain, k + 1) {
        if prev != null {
          NodesDiffer(chain, k, i - 1);
        }
      }
      CutLinked(chain, i, buckets[b]);
    }

    // ---- Growing ----

    /** Chains all nodes of all buckets together. */
    method Gather() returns (all: Node?, ghost list: seq<Node>)
      requires Valid()
      modifies nodes`next
      ensures Linked(all, list) && NoDup(list) && NodeSet(list) == nodes
    {
      hide *;
      ValidMeans();
      LinkedMeans();
      all, list := null, [];
      NothingLinked(chains);
      for i := nbuckets downto 0
        invariant Linked(all, list) && NoDup(list)
        invariant NodeSet(list) == NodesFrom(chains, i)
        invariant forall b :: 0 <= b < i ==> Linked(buckets[b], chains[b])
      {
        ChainIsApart(chains, i);
        label start:
        all, list := GatherChain(buckets[i], chains[i], all, list);
        forall b | 0 <= b < i ensures Linked(buckets[b], chains[b]) {
          assert old@start(Linked(buckets[b], chains[b]));
          ChainsApart(chains, b, i);
        }
      }
      NodesFromAll(chains);
    }

    /** Adds the nodes of a list to the buckets, one after the other. */
    method AddAll(all: Node?, ghost list: seq<Node>)
      requires |chains| == nbuckets == buckets.Length && IsSize(nbuckets) && Placed(chains) && AllLinked() && nodes == Nodes(chains) == {}
      requires Linked(all, list) && Distinct(list) && forall k :: 0 <= k < |list| ==> list[k].hash == Hash(list[k].key)
      modifies this`chains, this`nodes, buckets, NodeSet(list)`next
      ensures |chains| == nbuckets && Placed(chains) && AllLinked() && nodes == Nodes(chains) == NodeSet(list)
    {
      hide *;
      LinkedNexts(all, list);
      Walk(list, 0);
      var node := all;
      ghost var k := 0;
      NothingLinked(chains);
      assert list[..0] == [];
      while node != null
        invariant k <= |list| && node == NodeAt(list, k) && (node == null <==> k == |list|) && (node != null ==> node == list[k])
        invariant forall j :: k <= j < |list| ==> list[j].next == NodeAt(list, j + 1)
        invariant |chains| == nbuckets && Placed(chains) && AllLinked()
        invariant nodes == Nodes(chains) == NodeSet(list[..k])
        decreases |list| - k
      {
        var next := node.next;
        NextAdded(chains, list, k);
        NodesGrow(chains, node);
        AddNode(node);
        node := next;
        k := k + 1;
        Walk(list, k);
      }
      AllGathered(list);
    }

    /** Grows the bucket array when that is possible; either way all nodes end up in the buckets that there are. */
    method Resize(n: nat, granted: bool) returns (ok: bool)
      requires Valid() && IsSize(n) && n > nbuckets
      modifies this`buckets, this`nbuckets, this`chains, this`nodes, buckets, nodes`next
      ensures Valid() && ok == granted && nodes == old(nodes) && contents == old(contents)
      ensures nbuckets == if granted then n else old(nbuckets)
      ensures buckets == old(buckets) || fresh(buckets)
    {
      hide *;
      ValidMeans();
      ghost var before, m := chains, contents;
      ValuesMean(nodes, m);
      var all, list := Gather();
      if granted {
        buckets := new Node?[n];
        nbuckets := n;
      }
      if nbuckets > 0 {
        ClearBuckets();
        ListIsDistinct(before, list);
        AddAll(all, list);
        CoveredAgain(before, chains, m);
      } else {
        AllLinkedIs();
      }
      ValuesAre(nodes, m);
      ValidIs();
      ok := granted;
    }

    method ClearBuckets()
      requires nbuckets == buckets.Length && IsSize(nbuckets)
      modifies this`chains, this`nodes, buckets
      ensures |chains| == nbuckets && Placed(chains) && AllLinked() && nodes == Nodes(chains) == {}
    {
      for i := 0 to nbuckets
        invariant forall k :: 0 <= k < i ==> buckets[k] == null
      {
        buckets[i] := null;
      }
      chains := seq(nbuckets, _ => []);
      nodes := {};
    }

    // ---- Setting ----

    /**
     Stores a value. It can only fail when the table has to grow and cannot; then an old value of another size is already
     gone.
     */
    method Set(key: Key, value: Value, granted: bool) returns (ok: bool)
      requires Valid()
      modifies this, buckets, nodes
      ensures Valid()
      ensures contents == if ok then old(contents)[key := value] else old(contents) - {key}
      ensures var same := key in old(contents) && |old(contents)[key]| == |value|;
              var full := MustGrow(|old(contents) - {key}|, old(nbuckets));
              && (ok <==> same || granted || !full)
              && nbuckets == if !same && full && granted then Grown(old(nbuckets)) else old(nbuckets)
    {
      hide *;
      var b, prev, node, i := Find(key);
      if node != null {
        HeldAt(b, i);
        if |value| == |node.value| {
          Replace(node, value, b, i);
          return true;
        }
        Remove(key);
      } else {
        KeyAbsent(contents, key);
      }
      ghost var without := contents;
      ValidMeans();
      ok := Make(granted);
      KeyBack(old(contents), without, key, value);
      if ok {
        Insert(key, value);
      }
    }

    /** Overwrites a value with another one of the same size. */
    method Replace(node: Node, value: Value, ghost b: nat, ghost i: nat)
      requires Valid() && b < |chains| && i < |chains[b]| && node == chains[b][i]
      modifies this`contents, node`value
      ensures Valid() && contents == old(contents)[node.key := value]
    {
      hide *;
      ValidMeans();
      LinkedMeans();
      HeldAt(b, i);
      ValuesMean(nodes, contents);
      forall c | 0 <= c < |chains|
        ensures buckets[c] == NodeAt(chains[c], 0)
        ensures forall k :: 0 <= k < |chains[c]| ==> chains[c][k].next == NodeAt(chains[c], k + 1)
      {
        LinkedNexts(buckets[c], chains[c]);
      }
      node.value := value;
      forall c | 0 <= c < |chains| ensures Linked(buckets[c], chains[c]) {
        LinkedFrom(buckets[c], chains[c]);
      }
      ValuesReplaced(chains, contents, b, i, value);
      CoveredReplaced(chains, contents, node.key, value);
      contents := contents[node.key := value];
      AllLinkedIs();
      ValidIs();
    }

    /** Grows the table when it is full and not yet at its limit. */
    method Make(granted: bool) returns (ok: bool)
      requires Valid()
      modifies this`buckets, this`nbuckets, this`chains, this`nodes, buckets, nodes`next
      ensures Valid() && contents == old(contents) && nodes == old(nodes)
      ensures (ok ==> IsSize(nbuckets)) && (ok <==> granted || !MustGrow(old(nnodes), old(nbuckets)))
      ensures nbuckets == if MustGrow(old(nnodes), old(nbuckets)) && granted then Grown(old(nbuckets)) else old(nbuckets)
      ensures buckets == old(buckets) || fresh(buckets)
    {
      ok := true;
      hide Valid;
      BucketsGrow();
      if nnodes >= nbuckets && nbuckets < 512 {
        var n := if nbuckets > 0 then 2 * nbuckets else 4;
        ok := Resize(n, granted);
      }
    }

    lemma BucketsGrow()
      requires Valid()
      ensures nbuckets == 0 || IsSize(nbuckets)
    {
      ValidMeans();
    }

    /** Adds a node for a key that is not there. */
    method Insert(key: Key, value: Value)
      requires Valid() && IsSize(nbuckets) && key !in contents
      modifies this`nnodes, this`chains, this`nodes, this`contents, buckets
      ensures Valid() && contents == old(contents)[key := value]
    {
      hide *;
      ValidMeans();
      ghost var before, m := chains, contents;
      ValuesMean(nodes, m);
      SizePositive(nbuckets);
      LookedUp(key);
      var node := new Node(key, value);
      NewNode(before, node.hash, key);
      AddNode(node);
      nnodes := nnodes + 1;
      contents := contents[key := value];
      NodesGrow(before, node);
      ValuesAre(nodes, contents);
      CoveredAdd(before, m, node, value);
      ValidIs();
    }

    // ---- Visiting ----

    /** The next key, bucket after bucket and along the chains, until there is none left. */
    method Next(it: Iterator) returns (key: Key, more: bool)
      requires Valid() && it.At(chains)
      modifies it
      ensures it.At(chains)
      ensures if more then it.visited == old(it.visited) + [key] else it.visited == old(it.visited) == KeysOf(FlatUpTo(chains, |chains|))
    {
      hide *;
      ValidMeans();
      LinkedMeans();
      it.AtMeans(chains);
      if it.node != null {
        var b := it.bucketidx;
        LinkedNexts(buckets[b], chains[b]);
        Walk(chains[b], it.place + 1);
        it.node := it.node.next;
        it.place := it.place + 1;
        if it.node != null {
          NextVisited(chains, b, it.place);
          it.visited := it.visited + [it.node.key];
          it.AtNode(chains);
          return it.node.key, true;
        }
        ChainVisited(chains, b, it.place);
      }
      key, more := NextBucket(it);
    }

    /** The first key of the next bucket that is not empty. */
    method NextBucket(it: Iterator) returns (key: Key, more: bool)
      requires Valid() && it.node == null && it.bucketidx >= -1
      requires it.visited == KeysOf(FlatUpTo(chains, if it.bucketidx < |chains| then it.bucketidx + 1 else |chains|))
      modifies it
      ensures it.At(chains)
      ensures if more then it.visited == old(it.visited) + [key] else it.visited == old(it.visited) == KeysOf(FlatUpTo(chains, |chains|))
    {
      hide *;
      ValidMeans();
      LinkedMeans();
      while it.node == null
        invariant -1 <= it.bucketidx && it.visited == old(it.visited)
        invariant it.node == null ==> it.visited == KeysOf(FlatUpTo(chains, if it.bucketidx < |chains| then it.bucketidx + 1 else |chains|))
        invariant it.node != null ==>
          0 <= it.bucketidx < |chains| && chains[it.bucketidx] != [] && it.node == chains[it.bucketidx][0]
          && it.visited == KeysOf(FlatUpTo(chains, it.bucketidx))
        decreases it.node == null, |chains| - it.bucketidx
      {
        it.bucketidx := it.bucketidx + 1;
        if it.bucketidx >= nbuckets {
          it.AtEnd(chains);
          return [], false;
        }
        ghost var b := it.bucketidx;
        LinkedNexts(buckets[b], chains[b]);
        Walk(chains[b], 0);
        EmptyVisited(chains, b);
        it.node := buckets[it.bucketidx];
      }
      it.place := 0;
      NextVisited(chains, it.bucketidx, 0);
      it.visited := it.visited + [it.node.key];
      it.AtNode(chains);
      return it.node.key, true;
    }

    /** What is visited all in all: every key of the map, each once. */
    lemma VisitsEveryKeyOnce()
      requires Valid()
      ensures forall k :: k in contents <==> k in KeysOf(FlatUpTo(chains, |chains|))
      ensures forall i, j :: 0 <= i < j < |KeysOf(FlatUpTo(chains, |chains|))| ==>
                KeysOf(FlatUpTo(chains, |chains|))[i] != KeysOf(FlatUpTo(chains, |chains|))[j]
    {
      hide *;
      ValidMeans();
      ValuesMean(nodes, contents);
      FlatIsDistinct(chains, |chains|);
      var all := FlatUpTo(chains, |chains|);
      DistinctMeans(all);
      forall k ensures k in contents <==> k in KeysOf(all) {
        FlatHasKey(chains, contents, k);
      }
    }
  }

  /** Where a visit of all keys stands, and what has been visited. */
  class Iterator {
    var bucketidx: int
    var node: Node?
    ghost var place: nat
    ghost var visited: seq<Key>

    constructor ()
      ensures forall chains: seq<seq<Node>> :: At(chains)
      ensures visited == []
    {
      bucketidx, node := -1, null;
      place, visited := 0, [];
    }

    ghost predicate At(chains: seq<seq<Node>>)
      reads this
    {
      if node != null then
        && 0 <= bucketidx < |chains| && place < |chains[bucketidx]| && node == chains[bucketidx][place]
        && visited == KeysOf(FlatUpTo(chains, bucketidx) + chains[bucketidx][..place + 1])
      else
        || (bucketidx == -1 && visited == [])
        || (bucketidx >= |chains| && visited == KeysOf(FlatUpTo(chains, |chains|)))
    }

    lemma AtMeans(chains: seq<seq<Node>>)
      requires At(chains)
      ensures node != null ==>
                && 0 <= bucketidx < |chains| && place < |chains[bucketidx]| && node == chains[bucketidx][place]
                && visited == KeysOf(FlatUpTo(chains, bucketidx) + chains[bucketidx][..place + 1])
      ensures node == null ==>
                -1 <= bucketidx && visited == KeysOf(FlatUpTo(chains, if bucketidx < |chains| then bucketidx + 1 else |chains|))
    {
    }

    lemma AtNode(chains: seq<seq<Node>>)
      requires node != null && 0 <= bucketidx < |chains| && place < |chains[bucketidx]| && node == chains[bucketidx][place]
      requires visited == KeysOf(FlatUpTo(chains, bucketidx) + chains[bucketidx][..place + 1])
      ensures At(chains)
    {
    }

    lemma AtEnd(chains: seq<seq<Node>>)
      requires node == null && bucketidx >= |chains| && visited == KeysOf(FlatUpTo(chains, |chains|))
      ensures At(chains)
    {
    }
  }

  /** The nodes of the first n buckets, one chain after the other. */
  ghost function FlatUpTo(chains: seq<seq<Node>>, n: nat): seq<Node>
    requires n <= |chains|
  {
    if n == 0 then [] else FlatUpTo(chains, n - 1) + chains[n - 1]
  }

  function KeysOf(list: seq<Node>): (keys: seq<Key>)
    ensures |keys| == |list| && forall i :: 0 <= i < |list| ==> keys[i] == list[i].key
  {
    seq(|list|, i requires 0 <= i < |list| => list[i].key)
  }

  lemma NextVisited(chains: seq<seq<Node>>, b: nat, i: nat)
    requires b < |chains| && i < |chains[b]|
    ensures i > 0 ==>
              KeysOf(FlatUpTo(chains, b) + chains[b][..i]) + [chains[b][i].key] == KeysOf(FlatUpTo(chains, b) + chains[b][..i + 1])
    ensures i == 0 ==> KeysOf(FlatUpTo(chains, b)) + [chains[b][0].key] == KeysOf(FlatUpTo(chains, b) + chains[b][..1])
  {
    hide FlatUpTo;
  }

  lemma ChainVisited(chains: seq<seq<Node>>, b: nat, i: nat)
    requires b < |chains| && i == |chains[b]|
    ensures KeysOf(FlatUpTo(chains, b) + chains[b][..i]) == KeysOf(FlatUpTo(chains, b + 1))
  {
    assert chains[b][..i] == chains[b];
  }

  lemma EmptyVisited(chains: seq<seq<Node>>, b: nat)
    requires b < |chains|
    ensures chains[b] == [] ==> FlatUpTo(chains, b + 1) == FlatUpTo(chains, b)
  {
  }

  lemma DistinctMeans(list: seq<Node>)
    requires Distinct(list)
    ensures forall i, j :: 0 <= i < j < |list| ==> KeysOf(list)[i] != KeysOf(list)[j]
  {
  }

  lemma {:induction false} FlatAt(chains: seq<seq<Node>>, n: nat, i: nat) returns (b: nat, j: nat)
    requires n <= |chains| && i < |FlatUpTo(chains, n)|
    ensures b < n && j < |chains[b]| && FlatUpTo(chains, n)[i] == chains[b][j]
  {
    if i < |FlatUpTo(chains, n - 1)| {
      b, j := FlatAt(chains, n - 1, i);
    } else {
      b, j := n - 1, i - |FlatUpTo(chains, n - 1)|;
    }
  }

  lemma {:induction false} InFlat(chains: seq<seq<Node>>, n: nat, b: nat, j: nat)
    requires b < n <= |chains| && j < |chains[b]|
    ensures chains[b][j] in FlatUpTo(chains, n)
  {
    if b < n - 1 {
      InFlat(chains, n - 1, b, j);
    }
  }

  lemma {:induction false} FlatIsDistinct(chains: seq<seq<Node>>, n: nat)
    requires Placed(chains) && n <= |chains|
    ensures Distinct(FlatUpTo(chains, n))
  {
    if n > 0 {
      FlatIsDistinct(chains, n - 1);
      var front, last := FlatUpTo(chains, n - 1), chains[n - 1];
      forall i, j | 0 <= i < |front| && 0 <= j < |last| ensures front[i].key != last[j].key {
        var b, k := FlatAt(chains, n - 1, i);
        OtherKey(chains, b, k, n - 1, j);
      }
      hide FlatUpTo, Placed;
      LastDistinct(chains, n - 1);
      DistinctJoin(front, last);
      FlatStep(chains, n);
    }
  }

  lemma LastDistinct(chains: seq<seq<Node>>, b: nat)
    requires Placed(chains) && b < |chains|
    ensures Distinct(chains[b])
  {
  }

  lemma FlatStep(chains: seq<seq<Node>>, n: nat)
    requires 0 < n <= |chains|
    ensures FlatUpTo(chains, n) == FlatUpTo(chains, n - 1) + chains[n - 1]
  {
  }

  lemma OtherKey(chains: seq<seq<Node>>, b: nat, i: nat, c: nat, j: nat)
    requires Placed(chains) && b < |chains| && c < |chains| && b != c && i < |chains[b]| && j < |chains[c]|
    ensures chains[b][i].key != chains[c][j].key && Distinct(chains[c])
  {
    hide Hash, Slot, IsSize;
  }

  lemma DistinctJoin(a: seq<Node>, b: seq<Node>)
    requires Distinct(a) && Distinct(b)
    requires forall i, j :: 0 <= i < |a| && 0 <= j < |b| ==> a[i].key != b[j].key
    ensures Distinct(a + b)
  {
  }

  lemma FlatHasKey(chains: seq<seq<Node>>, m: map<Key, Value>, k: Key)
    requires (chains == [] || IsSize(|chains|)) && Covered(chains, m)
    requires forall n :: n in Nodes(chains) ==> n.key in m
    ensures k in m <==> k in KeysOf(FlatUpTo(chains, |chains|))
  {
    hide Hash, Slot, IsSize, FlatUpTo;
    var all := FlatUpTo(chains, |chains|);
    if k in m {
      var chain := ChainOf(chains, k);
      assert InChain(chain, k);
      var j :| 0 <= j < |chain| && chain[j].key == k;
      InFlat(chains, |chains|, Slot(Hash(k), |chains|), j);
      var i :| 0 <= i < |all| && all[i] == chain[j];
      assert KeysOf(all)[i] == k;
    }
    if k in KeysOf(all) {
      var i :| 0 <= i < |all| && KeysOf(all)[i] == k;
      var b, j := FlatAt(chains, |chains|, i);
      assert chains[b][j] in Nodes(chains);
    }
  }

  /** The nodes of a sequence. */
  ghost function NodeSet(list: seq<Node>): set<Node> {
    set n | n in list
  }

  predicate NoDup(list: seq<Node>) {
    forall i, j :: 0 <= i < j < |list| ==> list[i] != list[j]
  }

  ghost function NodesFrom(chains: seq<seq<Node>>, from: nat): set<Node>
    requires from <= |chains|
  {
    set b, i | from <= b < |chains| && 0 <= i < |chains[b]| :: chains[b][i]
  }

  /** Moves the nodes of one bucket to the front of a list. */
  method GatherChain(head: Node?, ghost chain: seq<Node>, all: Node?, ghost list: seq<Node>) returns (all': Node?, ghost list': seq<Node>)
    requires Linked(head, chain) && Linked(all, list) && NoDup(chain) && NoDup(list) && NodeSet(chain) !! NodeSet(list)
    modifies NodeSet(chain)`next
    ensures Linked(all', list') && NoDup(list') && NodeSet(list') == NodeSet(list) + NodeSet(chain)
  {
    hide *;
    all', list' := all, list;
    var node := head;
    ghost var k := 0;
    LinkedNexts(head, chain);
    Walk(chain, 0);
    StartGathering(chain, list);
    while node != null
      invariant k <= |chain| && node == NodeAt(chain, k) && (node == null <==> k == |chain|) && (node != null ==> node == chain[k])
      invariant forall j :: k <= j < |chain| ==> chain[j].next == NodeAt(chain, j + 1)
      invariant Linked(all', list') && NoDup(list') && NodeSet(list') == NodeSet(list) + NodeSet(chain[..k])
      decreases |chain| - k
    {
      var next := node.next;
      NextGathered(chain, list, list', k);
      label start:
      node.next := all';
      assert Linked(all', list') by {
        assert old@start(Linked(all', list'));
      }
      LinkedCons(node, list');
      all', list' := node, [node] + list';
      node := next;
      k := k + 1;
      Walk(chain, k);
    }
    AllGathered(chain);
  }

  lemma Walk(chain: seq<Node>, i: nat)
    ensures NodeAt(chain, i) == null <==> i >= |chain|
    ensures i < |chain| ==> NodeAt(chain, i) == chain[i]
  {
  }

  lemma KeyInChain(chain: seq<Node>, i: nat, key: Key)
    requires i < |chain| && chain[i].key == key
    ensures InChain(chain, key)
  {
  }

  lemma NoKeyInChain(chain: seq<Node>, key: Key)
    requires forall k :: 0 <= k < |chain| ==> chain[k].key != key
    ensures !InChain(chain, key)
  {
  }

  lemma PlacedMeans(chains: seq<seq<Node>>)
    requires Placed(chains)
    ensures chains == [] || IsSize(|chains|)
  {
  }

  lemma LinkedCons(node: Node, chain: seq<Node>)
    requires Linked(node.next, chain)
    ensures Linked(node, [node] + chain)
  {
    var list := [node] + chain;
    forall i | 0 <= i < |list| ensures list[i].next == NodeAt(list, i + 1) {
      assert NodeAt(list, i + 1) == NodeAt(chain, i);
      if i > 0 {
        assert list[i] == chain[i - 1];
        assert chain[i - 1].next == NodeAt(chain, i);
      }
    }
  }

  lemma PlacedAdd(chains: seq<seq<Node>>, node: Node)
    requires Placed(chains) && IsSize(|chains|) && node.hash == Hash(node.key) && !InChain(ChainOf(chains, node.key), node.key)
    ensures Placed(chains[Slot(node.hash, |chains|) := [node] + chains[Slot(node.hash, |chains|)]])
  {
    hide Hash, Slot, IsSize;
    var n := Slot(node.hash, |chains|);
    var chain := [node] + chains[n];
    forall i, j | 0 <= i < j < |chain| ensures chain[i].key != chain[j].key {
      if i == 0 {
        assert chain[j] == chains[n][j - 1];
      }
    }
  }

  lemma KeyAbsent(m: map<Key, Value>, key: Key)
    requires key !in m
    ensures m - {key} == m
  {
  }

  lemma NotInOther(chains: seq<seq<Node>>, b: nat, i: nat, c: nat)
    requires Placed(chains) && b < |chains| && c < |chains| && b != c && i < |chains[b]|
    ensures chains[b][i] !in chains[c]
  {
    hide Hash, Slot;
  }

  /** Nodes of a chain are different nodes. */
  lemma NodesDiffer(chain: seq<Node>, i: nat, j: nat)
    requires Distinct(chain) && i < |chain| && j < |chain| && i != j
    ensures chain[i] != chain[j]
  {
  }

  /** A chain is linked without its i-th node when the one before that, or the head, leads past it. */
  lemma CutLinked(chain: seq<Node>, i: nat, head: Node?)
    requires i < |chain|
    requires if i == 0 then head == NodeAt(chain, 1) else head == NodeAt(chain, 0) && chain[i - 1].next == NodeAt(chain, i + 1)
    requires forall k :: 0 <= k < |chain| && k != i - 1 ==> chain[k].next == NodeAt(chain, k + 1)
    ensures Linked(head, chain[..i] + chain[i + 1..])
  {
    var cut := chain[..i] + chain[i + 1..];
    forall k | 0 <= k < |cut| ensures cut[k].next == NodeAt(cut, k + 1) {
      var j := if k < i then k else k + 1;
      assert cut[k] == chain[j];
    }
  }

  lemma LinkedNexts(head: Node?, chain: seq<Node>)
    requires Linked(head, chain)
    ensures head == NodeAt(chain, 0) && forall k :: 0 <= k < |chain| ==> chain[k].next == NodeAt(chain, k + 1)
  {
  }

  lemma PlacedAt(chains: seq<seq<Node>>, b: nat)
    requires Placed(chains) && b < |chains|
    ensures Distinct(chains[b])
  {
  }

  lemma KeyPresent(m: map<Key, Value>, key: Key)
    requires key in m
    ensures |m - {key}| == |m| - 1
  {
    assert m.Keys == (m - {key}).Keys + {key};
    assert |m.Keys| == |m| && |(m - {key}).Keys| == |m - {key}|;
  }

  lemma PlacedCut(chains: seq<seq<Node>>, b: nat, i: nat)
    requires Placed(chains) && b < |chains| && i < |chains[b]|
    ensures Placed(chains[b := chains[b][..i] + chains[b][i + 1..]])
  {
    hide Hash, Slot, IsSize;
    var cut := chains[b][..i] + chains[b][i + 1..];
    forall k | 0 <= k < |cut| ensures cut[k] == chains[b][if k < i then k else k + 1] {
    }
  }

  lemma NodesCut(chains: seq<seq<Node>>, b: nat, i: nat)
    requires Placed(chains) && b < |chains| && i < |chains[b]|
    ensures Nodes(chains[b := chains[b][..i] + chains[b][i + 1..]]) == Nodes(chains) - {chains[b][i]}
  {
    hide Hash, Slot, IsSize;
    var cut := chains[b][..i] + chains[b][i + 1..];
    var now: seq<seq<Node>> := chains[b := cut];
    forall n | n in Nodes(chains) && n != chains[b][i] ensures n in Nodes(now) {
      var c, j :| 0 <= c < |chains| && 0 <= j < |chains[c]| && n == chains[c][j];
      if c == b {
        var k := if j < i then j else j - 1;
        assert now[c][k] == n;
      } else {
        assert now[c][j] == n;
      }
    }
    forall n | n in Nodes(now) ensures n in Nodes(chains) && n != chains[b][i] {
      var c, k :| 0 <= c < |now| && 0 <= k < |now[c]| && n == now[c][k];
      var j := if c == b && k >= i then k + 1 else k;
      assert chains[c][j] == n;
      if c == b {
        NodesDiffer(chains[b], i, j);
      } else {
        NotInOther(chains, b, i, c);
      }
    }
  }

  lemma ValuesMean(nodes: set<Node>, m: map<Key, Value>)
    requires Values(nodes, m)
    ensures forall n :: n in nodes ==> n.key in m && m[n.key] == n.value
  {
  }

  lemma ValuesAre(nodes: set<Node>, m: map<Key, Value>)
    requires forall n :: n in nodes ==> n.key in m && m[n.key] == n.value
    ensures Values(nodes, m)
  {
  }

  /** No other node has the same key. */
  lemma KeyUnique(chains: seq<seq<Node>>, b: nat, i: nat, n: Node)
    requires Placed(chains) && b < |chains| && i < |chains[b]| && n in Nodes(chains) && n.key == chains[b][i].key
    ensures n == chains[b][i]
  {
    hide Hash, Slot, IsSize;
    var c, j :| 0 <= c < |chains| && 0 <= j < |chains[c]| && n == chains[c][j];
  }

  lemma ValuesCut(chains: seq<seq<Node>>, m: map<Key, Value>, b: nat, i: nat)
    requires Placed(chains) && b < |chains| && i < |chains[b]| && Values(Nodes(chains), m)
    ensures Values(Nodes(chains) - {chains[b][i]}, m - {chains[b][i].key})
  {
    hide Placed, Nodes;
    forall n | n in Nodes(chains) && n != chains[b][i] ensures n.key != chains[b][i].key {
      if n.key == chains[b][i].key {
        KeyUnique(chains, b, i, n);
      }
    }
  }

  lemma CoveredCut(chains: seq<seq<Node>>, m: map<Key, Value>, b: nat, i: nat)
    requires IsSize(|chains|) && b < |chains| && i < |chains[b]| && Covered(chains, m)
    ensures Covered(chains[b := chains[b][..i] + chains[b][i + 1..]], m - {chains[b][i].key})
  {
    hide Hash, Slot, IsSize;
    var cut := chains[b][..i] + chains[b][i + 1..];
    var now: seq<seq<Node>> := chains[b := cut];
    forall q | q in m && q != chains[b][i].key ensures InChain(ChainOf(now, q), q) {
      var c := Slot(Hash(q), |chains|);
      assert InChain(ChainOf(chains, q), q);
      var j :| 0 <= j < |chains[c]| && chains[c][j].key == q;
      assert now[c][if c == b && j > i then j - 1 else j].key == q;
    }
  }

  lemma NothingLinked(chains: seq<seq<Node>>)
    ensures NodesFrom(chains, |chains|) == {}
    ensures Linked(null, []) && NoDup([]) && NodeSet([]) == {}
  {
  }

  lemma StartGathering(chain: seq<Node>, list: seq<Node>)
    ensures NodeSet(list) == NodeSet(list) + NodeSet(chain[..0])
  {
  }

  lemma AllGathered(chain: seq<Node>)
    ensures chain[..|chain|] == chain
  {
  }

  lemma NextGathered(chain: seq<Node>, list: seq<Node>, list': seq<Node>, k: nat)
    requires k < |chain| && NoDup(chain) && NodeSet(chain) !! NodeSet(list)
    requires NoDup(list') && NodeSet(list') == NodeSet(list) + NodeSet(chain[..k])
    ensures chain[k] !in list' && NoDup([chain[k]] + list') && chain[k] in NodeSet(chain)
    ensures NodeSet([chain[k]] + list') == NodeSet(list) + NodeSet(chain[..k + 1])
    ensures forall j :: k < j < |chain| ==> chain[j] != chain[k]
  {
    assert chain[k] in NodeSet(chain) && chain[k] !in NodeSet(list');
    assert chain[..k + 1] == chain[..k] + [chain[k]];
    var more := [chain[k]] + list';
    forall i, j | 0 <= i < j < |more| ensures more[i] != more[j] {
      assert more[j] == list'[j - 1];
    }
    forall n ensures n in NodeSet(more) <==> n in NodeSet(list) + NodeSet(chain[..k + 1]) {
      assert n in more <==> n == chain[k] || n in NodeSet(list');
    }
  }

  lemma ChainIsApart(chains: seq<seq<Node>>, b: nat)
    requires Placed(chains) && b < |chains|
    ensures NoDup(chains[b]) && NodeSet(chains[b]) !! NodesFrom(chains, b + 1)
    ensures NodesFrom(chains, b) == NodesFrom(chains, b + 1) + NodeSet(chains[b])
    ensures NodeSet(chains[b]) <= Nodes(chains)
  {
    hide Hash, Slot, IsSize;
    forall n | n in NodeSet(chains[b]) ensures n !in NodesFrom(chains, b + 1) && n in NodesFrom(chains, b) && n in Nodes(chains) {
      var i :| 0 <= i < |chains[b]| && n == chains[b][i];
      forall c | b < c < |chains| ensures n !in chains[c] {
        NotInOther(chains, b, i, c);
      }
    }
  }

  lemma ChainsApart(chains: seq<seq<Node>>, b: nat, c: nat)
    requires Placed(chains) && b < |chains| && c < |chains| && b != c
    ensures NodeSet(chains[b]) !! NodeSet(chains[c]) && forall n :: n in chains[b] ==> n !in NodeSet(chains[c])
  {
    forall n | n in chains[b] ensures n !in chains[c] {
      var i :| 0 <= i < |chains[b]| && n == chains[b][i];
      NotInOther(chains, b, i, c);
    }
  }

  lemma NodesFromAll(chains: seq<seq<Node>>)
    ensures NodesFrom(chains, 0) == Nodes(chains)
  {
  }

  lemma NextAdded(chains: seq<seq<Node>>, list: seq<Node>, k: nat)
    requires k < |list| && Distinct(list) && Placed(chains) && IsSize(|chains|) && Nodes(chains) == NodeSet(list[..k])
    ensures list[k] !in NodeSet(list[..k]) && list[k] in NodeSet(list)
    ensures !InChain(ChainOf(chains, list[k].key), list[k].key)
    ensures NodeSet(list[..k + 1]) == NodeSet(list[..k]) + {list[k]}
    ensures forall j :: k < j < |list| ==> list[j] != list[k]
  {
    hide Hash, Slot, IsSize, Placed;
    var node := list[k];
    assert list[..k + 1] == list[..k] + [node];
    forall n | n in NodeSet(list[..k]) ensures n.key != node.key {
      var i :| 0 <= i < k && n == list[i];
    }
    var chain := ChainOf(chains, node.key);
    forall i | 0 <= i < |chain| ensures chain[i].key != node.key {
      assert chains[Slot(Hash(node.key), |chains|)][i] in Nodes(chains);
    }
  }

  lemma NodesGrow(chains: seq<seq<Node>>, node: Node)
    requires IsSize(|chains|)
    ensures var b := Slot(node.hash, |chains|);
            Nodes(chains[b := [node] + chains[b]]) == Nodes(chains) + {node}
  {
    hide Slot, IsSize;
    var b := Slot(node.hash, |chains|);
    var now: seq<seq<Node>> := chains[b := [node] + chains[b]];
    forall n | n in Nodes(chains) ensures n in Nodes(now) {
      var c, i :| 0 <= c < |chains| && 0 <= i < |chains[c]| && n == chains[c][i];
      assert now[c][if c == b then i + 1 else i] == n;
    }
    assert now[b][0] == node;
    forall n | n in Nodes(now) ensures n in Nodes(chains) + {node} {
      var c, i :| 0 <= c < |now| && 0 <= i < |now[c]| && n == now[c][i];
      if c == b && i > 0 {
        assert chains[c][i - 1] == n;
      }
    }
  }

  lemma ListIsDistinct(chains: seq<seq<Node>>, list: seq<Node>)
    requires Placed(chains) && NoDup(list) && NodeSet(list) == Nodes(chains)
    ensures Distinct(list) && forall k :: 0 <= k < |list| ==> list[k].hash == Hash(list[k].key)
  {
    hide Slot, Hash, IsSize;
    forall k | 0 <= k < |list|
      ensures list[k].hash == Hash(list[k].key)
      ensures forall j :: 0 <= j < |list| && list[j].key == list[k].key ==> list[j] == list[k]
    {
      assert list[k] in NodeSet(list);
      var b, i :| 0 <= b < |chains| && 0 <= i < |chains[b]| && list[k] == chains[b][i];
      forall j | 0 <= j < |list| && list[j].key == list[k].key ensures list[j] == list[k] {
        assert list[j] in NodeSet(list);
        KeyUnique(chains, b, i, list[j]);
      }
    }
  }

  lemma CoveredAgain(before: seq<seq<Node>>, now: seq<seq<Node>>, m: map<Key, Value>)
    requires (before == [] || IsSize(|before|)) && Covered(before, m) && Placed(now) && IsSize(|now|) && Nodes(now) == Nodes(before)
    ensures Covered(now, m)
  {
    hide Slot, Hash, IsSize;
    forall q | q in m ensures InChain(ChainOf(now, q), q) {
      var chain := ChainOf(before, q);
      assert InChain(chain, q);
      var i :| 0 <= i < |chain| && chain[i].key == q;
      assert before[Slot(Hash(q), |before|)][i] in Nodes(before);
      var c, j :| 0 <= c < |now| && 0 <= j < |now[c]| && chain[i] == now[c][j];
      assert now[c] == ChainOf(now, q);
    }
  }

  lemma LinkedFrom(head: Node?, chain: seq<Node>)
    requires head == NodeAt(chain, 0) && forall k :: 0 <= k < |chain| ==> chain[k].next == NodeAt(chain, k + 1)
    ensures Linked(head, chain)
  {
  }

  lemma ValuesReplaced(chains: seq<seq<Node>>, m: map<Key, Value>, b: nat, i: nat, value: Value)
    requires Placed(chains) && b < |chains| && i < |chains[b]| && chains[b][i].value == value
    requires forall n :: n in Nodes(chains) && n != chains[b][i] ==> n.key in m && m[n.key] == n.value
    ensures Values(Nodes(chains), m[chains[b][i].key := value])
  {
    hide Placed, Nodes;
    forall n | n in Nodes(chains) && n != chains[b][i] ensures n.key != chains[b][i].key {
      if n.key == chains[b][i].key {
        KeyUnique(chains, b, i, n);
      }
    }
  }

  lemma CoveredReplaced(chains: seq<seq<Node>>, m: map<Key, Value>, key: Key, value: Value)
    requires (chains == [] || IsSize(|chains|)) && Covered(chains, m) && key in m
    ensures Covered(chains, m[key := value]) && |m[key := value]| == |m|
  {
    assert m[key := value].Keys == m.Keys;
    assert |m.Keys| == |m| && |m[key := value].Keys| == |m[key := value]|;
  }

  lemma NewNode(chains: seq<seq<Node>>, hash: bv32, key: Key)
    requires IsSize(|chains|) && hash == Hash(key)
    ensures ChainOf(chains, key) == chains[Slot(hash, |chains|)]
  {
  }

  lemma CoveredAdd(chains: seq<seq<Node>>, m: map<Key, Value>, node: Node, value: Value)
    requires IsSize(|chains|) && Covered(chains, m) && node.hash == Hash(node.key) && node.key !in m
    ensures var b := Slot(node.hash, |chains|);
            Covered(chains[b := [node] + chains[b]], m[node.key := value]) && |m[node.key := value]| == |m| + 1
  {
    hide Slot, Hash, IsSize, InChain, ChainOf;
    var b := Slot(node.hash, |chains|);
    var now: seq<seq<Node>> := chains[b := [node] + chains[b]];
    forall q | q in m[node.key := value] ensures InChain(ChainOf(now, q), q) {
      InChainAdd(chains, node, q, q in m);
    }
    assert m[node.key := value].Keys == m.Keys + {node.key};
    assert |m.Keys| == |m| && |m[node.key := value].Keys| == |m[node.key := value]|;
  }

  lemma InChainAdd(chains: seq<seq<Node>>, node: Node, q: Key, before: bool)
    requires IsSize(|chains|) && node.hash == Hash(node.key)
    requires if before then InChain(ChainOf(chains, q), q) else q == node.key
    ensures InChain(ChainOf(chains[Slot(node.hash, |chains|) := [node] + chains[Slot(node.hash, |chains|)]], q), q)
  {
    hide Slot, Hash, IsSize;
    var b, c := Slot(node.hash, |chains|), Slot(Hash(q), |chains|);
    var now: seq<seq<Node>> := chains[b := [node] + chains[b]];
    if before {
      var j :| 0 <= j < |chains[c]| && chains[c][j].key == q;
      assert now[c][if c == b then j + 1 else j].key == q;
    } else {
      assert now[c][0].key == q;
    }
  }

  lemma SizePositive(n: nat)
    requires IsSize(n)
    ensures n > 0
  {
  }

  lemma KeyBack(m: map<Key, Value>, without: map<Key, Value>, key: Key, value: Value)
    requires without == m - {key}
    ensures without[key := value] == m[key := value] && key !in without
  {
  }
}
