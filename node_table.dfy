/** The class-to-node table that every constraint's node-creation pass registers into, and a
    closed-form description of what such a pass builds and leaves behind.

    A pass walks a constraint's source streams in order. For the stream at position j it builds a
    node chain (starting at node order 0) with the build policy as the earlier chains left it, and
    registers the chain's head for the stream's from-class unless the class is already a key. */
module NodeTable {
  import opened Wrappers

  /** The node order every chain of source streams starts from. */
  const StartNodeOrder: int := 0

  // ---------------------------------------------------------------------------------------------
  // putIfAbsent
  // ---------------------------------------------------------------------------------------------

  /** What `Map.putIfAbsent` returns (the previous value, if any) and the map it leaves. */
  datatype PutResult<K, V> = PutResult(previous: Option<V>, table: map<K, V>)

  function PutIfAbsent<K(==), V>(m: map<K, V>, k: K, v: V): (r: PutResult<K, V>)
    ensures r.previous.Some? <==> k in m
    ensures r.previous.Some? ==> r.previous.value == m[k]
    ensures r.table.Keys == m.Keys + {k}
    ensures forall x :: x in m ==> r.table[x] == m[x]
    ensures k !in m ==> r.table[k] == v
  {
    if k in m then PutResult(Some(m[k]), m) else PutResult(None, m[k := v])
  }

  // ---------------------------------------------------------------------------------------------
  // Building the chains
  // ---------------------------------------------------------------------------------------------

  /** The head node of a freshly built chain and the build policy after building it. */
  datatype ChainBuild<P, N> = ChainBuild(head: N, policy: P)

  /** Building the node chain of one source stream: given the build policy, the stream's
      from-class, its position in the constraint's stream list, the constraint weight and the
      starting node order, yields the chain's head node and the updated policy. */
  type ChainBuilder<!P, !C, !W, N> = (P, C, nat, W, int) -> ChainBuild<P, N>

  /** The heads built for a list of streams and the build policy left after the last one. */
  datatype Chains<P, N> = Chains(heads: seq<N>, policy: P)

  /** The chains built for `streams`, in order, each starting at `StartNodeOrder` and each seeing
      the policy the previous one left. */
  ghost function BuildChains<P, C, W, N>(build: ChainBuilder<P, C, W, N>, policy: P, streams: seq<C>,
                                         weight: W): (r: Chains<P, N>)
    ensures |r.heads| == |streams|
    decreases |streams|
  {
    if streams == [] then Chains([], policy)
    else
      var n := |streams| - 1;
      var earlier := BuildChains(build, policy, streams[..n], weight);
      var b := build(earlier.policy, streams[n], n, weight, StartNodeOrder);
      Chains(earlier.heads + [b.head], b.policy)
  }

  /** Building fewer streams builds a prefix of the same heads. */
  lemma {:induction false} BuildChainsPrefix<P, C, W, N>(build: ChainBuilder<P, C, W, N>, policy: P,
                                                        streams: seq<C>, weight: W, i: nat)
    requires i <= |streams|
    ensures BuildChains(build, policy, streams[..i], weight).heads
            == BuildChains(build, policy, streams, weight).heads[..i]
    decreases |streams|
  {
    if i < |streams| {
      var n := |streams| - 1;
      BuildChainsPrefix(build, policy, streams[..n], weight, i);
      assert streams[..n][..i] == streams[..i];
      var earlier := BuildChains(build, policy, streams[..n], weight);
      assert BuildChains(build, policy, streams, weight).heads[..i] == earlier.heads[..i];
    } else {
      assert streams[..i] == streams;
    }
  }

  /** Streams are processed in list order: the head for the stream at position j is the chain
      built from node order 0 with the policy left by the chains of positions 0 .. j-1. */
  lemma ChainHeadAt<P, C, W, N>(build: ChainBuilder<P, C, W, N>, policy: P, streams: seq<C>,
                                weight: W, j: nat)
    requires j < |streams|
    ensures BuildChains(build, policy, streams, weight).heads[j]
            == build(BuildChains(build, policy, streams[..j], weight).policy, streams[j], j, weight, 0).head
  {
    BuildChainsPrefix(build, policy, streams, weight, j + 1);
    assert streams[..j + 1][..j] == streams[..j];
  }

  /** One step of a pass builds the next chain from the policy the earlier chains left. */
  lemma ChainStep<P, C, W, N>(build: ChainBuilder<P, C, W, N>, policy: P, streams: seq<C>,
                              weight: W, i: nat)
    requires i < |streams|
    ensures var b := build(BuildChains(build, policy, streams[..i], weight).policy,
                           streams[i], i, weight, StartNodeOrder);
            b.head == BuildChains(build, policy, streams, weight).heads[i] &&
            b.policy == BuildChains(build, policy, streams[..i + 1], weight).policy
  {
    ChainHeadAt(build, policy, streams, weight, i);
    assert streams[..i + 1][..i] == streams[..i];
  }

  // ---------------------------------------------------------------------------------------------
  // What a pass registers
  // ---------------------------------------------------------------------------------------------

  /** The position of the first occurrence of `x` in `s`. */
  ghost function FirstIndex<T>(s: seq<T>, x: T): (i: nat)
    requires x in s
    ensures i < |s| && s[i] == x
    ensures forall j :: 0 <= j < i ==> s[j] != x
  {
    if s[0] == x then 0 else 1 + FirstIndex(s[1..], x)
  }

  /** A position holding `x` with no `x` before it is the first index of `x`. */
  lemma FirstIndexUnique<T>(s: seq<T>, x: T, i: nat)
    requires i < |s| && s[i] == x
    requires forall j :: 0 <= j < i ==> s[j] != x
    ensures FirstIndex(s, x) == i
  {
  }

  /** The first occurrence of an element of `s` stays where it is in any extension of `s`. */
  lemma FirstIndexPrefix<T>(s: seq<T>, t: seq<T>, x: T)
    requires x in s
    ensures FirstIndex(s + t, x) == FirstIndex(s, x)
  {
    var k := FirstIndex(s, x);
    assert (s + t)[k] == x;
    FirstIndexUnique(s + t, x, k);
  }

  /** The table after registering the heads of `streams` in order with `putIfAbsent`. */
  ghost function Registered<C, N>(table: map<C, N>, streams: seq<C>, heads: seq<N>): map<C, N>
    requires |heads| == |streams|
    decreases |streams|
  {
    if streams == [] then table
    else
      var n := |streams| - 1;
      PutIfAbsent(Registered(table, streams[..n], heads[..n]), streams[n], heads[n]).table
  }

  /** The keys a pass leaves: the table's keys, with their nodes unchanged, and the from-class of
      every stream; nothing else. */
  lemma {:induction false} RegisteredKeys<C, N>(table: map<C, N>, streams: seq<C>, heads: seq<N>)
    requires |heads| == |streams|
    ensures var m := Registered(table, streams, heads);
            (forall c :: c in table ==> c in m && m[c] == table[c]) &&
            (forall j :: 0 <= j < |streams| ==> streams[j] in m) &&
            (forall c :: c in m ==> c in table || c in streams)
    decreases |streams|
  {
    if streams != [] {
      var n := |streams| - 1;
      RegisteredKeys(table, streams[..n], heads[..n]);
      assert streams == streams[..n] + [streams[n]];
      var m := Registered(table, streams, heads);
      forall j | 0 <= j < |streams|
        ensures streams[j] in m
      {
        if j < n {
          assert streams[..n][j] == streams[j];
        }
      }
    }
  }

  /** Registering one more stream is exactly one `putIfAbsent`. */
  lemma RegisteredSnoc<C, N>(table: map<C, N>, streams: seq<C>, heads: seq<N>, c: C, v: N)
    requires |heads| == |streams|
    ensures Registered(table, streams + [c], heads + [v])
            == PutIfAbsent(Registered(table, streams, heads), c, v).table
  {
  }

  /** Closed form of the pass: a from-class that was not in the table is mapped to the head built
      for its first stream. */
  lemma {:induction false} RegisteredFirst<C, N>(table: map<C, N>, streams: seq<C>, heads: seq<N>, c: C)
    requires |heads| == |streams|
    requires c in streams && c !in table
    ensures c in Registered(table, streams, heads)
    ensures Registered(table, streams, heads)[c] == heads[FirstIndex(streams, c)]
    decreases |streams|
  {
    RegisteredKeys(table, streams, heads);
    var n := |streams| - 1;
    assert streams == streams[..n] + [streams[n]];
    RegisteredKeys(table, streams[..n], heads[..n]);
    if c in streams[..n] {
      RegisteredFirst(table, streams[..n], heads[..n], c);
      FirstIndexPrefix(streams[..n], [streams[n]], c);
    } else {
      assert c == streams[n];
      FirstIndexUnique(streams, c, n);
    }
  }

  /** The stream at position j clashes when the node registered for its class by the time it is
      reached differs from the head just built for it. */
  ghost predicate Clash<C, N>(table: map<C, N>, streams: seq<C>, heads: seq<N>, j: nat)
    requires |heads| == |streams| && j < |streams|
  {
    var before := Registered(table, streams[..j], heads[..j]);
    streams[j] in before && before[streams[j]] != heads[j]
  }

  /** A pass never overwrites: the table after the first i streams is a sub-map of the table after
      the first n streams, for i <= n. */
  lemma {:induction false} RegisteredGrows<C, N>(table: map<C, N>, streams: seq<C>, heads: seq<N>,
                                                i: nat, n: nat)
    requires |heads| == |streams| && i <= n <= |streams|
    ensures var small := Registered(table, streams[..i], heads[..i]);
            var large := Registered(table, streams[..n], heads[..n]);
            forall c :: c in small ==> c in large && large[c] == small[c]
    decreases n
  {
    if i < n {
      RegisteredGrows(table, streams, heads, i, n - 1);
      RegisteredSnoc(table, streams[..n - 1], heads[..n - 1], streams[n - 1], heads[n - 1]);
      assert streams[..n - 1] + [streams[n - 1]] == streams[..n];
      assert heads[..n - 1] + [heads[n - 1]] == heads[..n];
    }
  }

  /** Where the clashing node comes from: either the table held a different node for the class
      before the pass, or an earlier stream of the same pass registered a different node. */
  lemma ClashOrigin<C, N>(table: map<C, N>, streams: seq<C>, heads: seq<N>, j: nat)
    requires |heads| == |streams| && j < |streams|
    ensures Clash(table, streams, heads, j) <==>
            var c := streams[j];
            (c in table && table[c] != heads[j]) ||
            (c !in table && c in streams[..j] && heads[FirstIndex(streams, c)] != heads[j])
  {
    var c := streams[j];
    RegisteredKeys(table, streams[..j], heads[..j]);
    if c !in table && c in streams[..j] {
      assert streams[..j] + streams[j..] == streams;
      FirstIndexPrefix(streams[..j], streams[j..], c);
      RegisteredFirst(table, streams[..j], heads[..j], c);
    }
  }

  /** When no stream clashes, every stream of a class resolves to the one node the table holds
      for that class: all streams of one class share one source node. */
  lemma SharedWhenNoClash<C, N>(table: map<C, N>, streams: seq<C>, heads: seq<N>)
    requires |heads| == |streams|
    requires forall j :: 0 <= j < |streams| ==> !Clash(table, streams, heads, j)
    ensures forall j :: 0 <= j < |streams| ==>
              streams[j] in Registered(table, streams, heads) &&
              Registered(table, streams, heads)[streams[j]] == heads[j]
  {
    RegisteredKeys(table, streams, heads);
    var full := Registered(table, streams, heads);
    forall j | 0 <= j < |streams|
      ensures streams[j] in full && full[streams[j]] == heads[j]
    {
      var c := streams[j];
      var before := Registered(table, streams[..j], heads[..j]);
      RegisteredKeys(table, streams[..j], heads[..j]);
      assert !Clash(table, streams, heads, j);
      RegisteredGrows(table, streams, heads, j, |streams|);
      assert streams[..|streams|] == streams && heads[..|streams|] == heads;
      if c !in before {
        forall k | 0 <= k < j
          ensures streams[k] != c
        {
          assert streams[..j][k] == streams[k];
        }
        FirstIndexUnique(streams, c, j);
        RegisteredFirst(table, streams, heads, c);
      }
    }
  }

  /** Threading one table through two passes registers the same as one pass over both lists, so
      when no pass fails, a table shared by several constraints ends up as after one pass over all
      their streams. */
  lemma {:induction false} RegisteredConcat<C, N>(table: map<C, N>, s1: seq<C>, h1: seq<N>,
                                                 s2: seq<C>, h2: seq<N>)
    requires |h1| == |s1| && |h2| == |s2|
    ensures Registered(Registered(table, s1, h1), s2, h2) == Registered(table, s1 + s2, h1 + h2)
    decreases |s2|
  {
    if s2 == [] {
      assert s1 + s2 == s1 && h1 + h2 == h1;
    } else {
      var n := |s2| - 1;
      RegisteredConcat(table, s1, h1, s2[..n], h2[..n]);
      ConcatPrefix(s1, s2, n);
      ConcatPrefix(h1, h2, n);
      assert (s1 + s2)[|s1| + n] == s2[n] && (h1 + h2)[|h1| + n] == h2[n];
    }
  }

  /** One step of a pass is one `putIfAbsent`, and it reports a different previous node exactly
      when the stream clashes. */
  lemma PassStep<C, N>(table: map<C, N>, streams: seq<C>, heads: seq<N>, i: nat, declared: map<C, N>)
    requires |heads| == |streams| && i < |streams|
    requires declared == Registered(table, streams[..i], heads[..i])
    ensures var put := PutIfAbsent(declared, streams[i], heads[i]);
            put.table == Registered(table, streams[..i + 1], heads[..i + 1]) &&
            (Clash(table, streams, heads, i) <==> put.previous.Some? && put.previous.value != heads[i])
  {
    RegisteredSnoc(table, streams[..i], heads[..i], streams[i], heads[i]);
    assert streams[..i] + [streams[i]] == streams[..i + 1];
    assert heads[..i] + [heads[i]] == heads[..i + 1];
  }

  /** Taking a prefix that ends inside the second part of a concatenation. */
  lemma ConcatPrefix<T>(s: seq<T>, t: seq<T>, n: nat)
    requires n <= |t|
    ensures (s + t)[..|s| + n] == s + t[..n]
  {
  }
}
