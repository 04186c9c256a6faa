/** The kernel's intrusive lists.  A thread structure has one `elem`; the ready list,
    the sleep list, the destruction list and the wait lists of semaphores are linked
    through it.  The lists stay in order as long as a thread is put on a list only when
    it is on none, and putting it on a second one breaks the first. */
module Queues {
  import opened Wrappers
  import opened Machine
  import opened Runs
  import opened KernelList

  // ------------------------------------------------------------------- chains

  /** A list's nodes, sentinels included, and the nodes it may write to. */
  datatype Chain = Chain(nodes: seq<Elem<Tid>>, owned: set<Elem<Tid>>)

  type Chains = map<Place, Chain>
  type Elems = map<Tid, Elem<Tid>>
  type Threads = map<Place, seq<Tid>>

  /** The structures a sequence of list elements is embedded in. */
  function Items(s: seq<Elem<Tid>>): (r: seq<Tid>)
    ensures |r| == |s| && forall i :: 0 <= i < |s| ==> r[i] == s[i].item
  {
    seq(|s|, i requires 0 <= i < |s| => s[i].item)
  }

  /** The threads on a list, front to back. */
  function Queue(c: Chain): seq<Tid> {
    if |c.nodes| < 2 then [] else Items(c.nodes[1..|c.nodes| - 1])
  }

  /** Between the sentinels there are threads' nodes only. */
  ghost predicate ChainOk(c: Chain, elem: Elems) {
    && |c.nodes| >= 2
    && c.owned == (set e | e in c.nodes)
    && (forall t :: t in elem ==> elem[t] != c.nodes[0] && elem[t] != c.nodes[|c.nodes| - 1])
    && (forall i :: 0 < i < |c.nodes| - 1 ==> c.nodes[i].item in elem && elem[c.nodes[i].item] == c.nodes[i])
  }

  /** No two lists share a node. */
  ghost predicate ChainsOk(cs: Chains, elem: Elems) {
    && (forall t :: t in elem ==> elem[t].item == t)
    && (forall p :: p in cs ==> ChainOk(cs[p], elem))
    && (forall p, q, e :: p in cs && q in cs && e in cs[p].owned && e in cs[q].owned ==> p == q)
  }

  /** A thread is on a list exactly when its node is one of the list's. */
  lemma OnList(c: Chain, elem: Elems, t: Tid)
    requires ChainOk(c, elem) && t in elem && elem[t].item == t
    ensures t in Queue(c) <==> elem[t] in c.owned
  {
    var m := c.nodes[1..|c.nodes| - 1];
    if t in Queue(c) {
      var i :| 0 <= i < |m| && Queue(c)[i] == t;
      assert c.nodes[i + 1] == m[i];
    }
    if elem[t] in c.owned {
      var i :| 0 <= i < |c.nodes| && c.nodes[i] == elem[t];
      assert m[i - 1] == elem[t] && Queue(c)[i - 1] == t;
    }
  }

  /** A list with a node put in before index `k`. */
  function Inserted(c: Chain, k: nat, e: Elem<Tid>): Chain
    requires k <= |c.nodes|
  {
    Chain(c.nodes[..k] + [e] + c.nodes[k..], c.owned + {e})
  }

  lemma InsertedQueue(c: Chain, k: nat, e: Elem<Tid>)
    requires 1 <= k < |c.nodes|
    ensures Queue(Inserted(c, k, e)) == Queue(c)[..k - 1] + [e.item] + Queue(c)[k - 1..]
  {
    var m, n := c.nodes, Inserted(c, k, e).nodes;
    assert n[1..|n| - 1] == m[1..|m| - 1][..k - 1] + [e] + m[1..|m| - 1][k - 1..] by { Middle(m, k, e); }
    ItemsInserted(m[1..|m| - 1], k - 1, e);
  }

  lemma Middle<X>(m: seq<X>, k: nat, e: X)
    requires 1 <= k < |m|
    ensures (m[..k] + [e] + m[k..])[1..|m|] == m[1..|m| - 1][..k - 1] + [e] + m[1..|m| - 1][k - 1..]
  {
    var n, s := m[..k] + [e] + m[k..], m[1..|m| - 1];
    var t := s[..k - 1] + [e] + s[k - 1..];
    forall i | 0 <= i < |m| - 1
      ensures n[1..|m|][i] == t[i]
    {
      assert n[i + 1] == if i + 1 < k then m[i + 1] else if i + 1 == k then e else m[i];
      assert t[i] == if i < k - 1 then s[i] else if i == k - 1 then e else s[i - 1];
    }
  }

  lemma ItemsInserted(s: seq<Elem<Tid>>, k: nat, e: Elem<Tid>)
    requires k <= |s|
    ensures Items(s[..k] + [e] + s[k..]) == Items(s)[..k] + [e.item] + Items(s)[k..]
  {
    var t, u := s[..k] + [e] + s[k..], Items(s)[..k] + [e.item] + Items(s)[k..];
    forall i | 0 <= i < |t|
      ensures Items(t)[i] == u[i]
    {
      assert t[i] == if i < k then s[i] else if i == k then e else s[i - 1];
      assert u[i] == if i < k then Items(s)[i] else if i == k then e.item else Items(s)[i - 1];
    }
  }

  lemma InsertedOk(c: Chain, elem: Elems, k: nat, t: Tid)
    requires ChainOk(c, elem) && t in elem && elem[t].item == t && 1 <= k < |c.nodes|
    ensures ChainOk(Inserted(c, k, elem[t]), elem)
  {
    var n := Inserted(c, k, elem[t]).nodes;
    forall i | 0 < i < |n| - 1
      ensures n[i].item in elem && elem[n[i].item] == n[i]
    {
      assert n[i] == if i < k then c.nodes[i] else if i == k then elem[t] else c.nodes[i - 1];
    }
  }

  /** Putting a thread that is on no list on one. */
  lemma InsertKeeps(cs: Chains, elem: Elems, p: Place, k: nat, t: Tid)
    requires ChainsOk(cs, elem) && p in cs && t in elem && 1 <= k < |cs[p].nodes|
    requires forall q :: q in cs ==> t !in Queue(cs[q])
    ensures ChainsOk(cs[p := Inserted(cs[p], k, elem[t])], elem)
  {
    InsertedOk(cs[p], elem, k, t);
    forall q | q in cs ensures elem[t] !in cs[q].owned { OnList(cs[q], elem, t); }
  }

  /** A list without its first element. */
  function Popped(c: Chain): Chain
    requires |c.nodes| > 2
  {
    Chain(c.nodes[..1] + c.nodes[2..], c.owned - {c.nodes[1]})
  }

  lemma PoppedQueue(c: Chain)
    requires |c.nodes| > 2
    ensures Queue(c) == [c.nodes[1].item] + Queue(Popped(c))
  {
    var m, n := c.nodes[1..|c.nodes| - 1], Popped(c).nodes;
    assert n[1..|n| - 1] == m[1..];
  }

  lemma PopKeeps(cs: Chains, elem: Elems, p: Place)
    requires ChainsOk(cs, elem) && p in cs && |cs[p].nodes| > 2 && NoDup(cs[p].nodes)
    ensures ChainsOk(cs[p := Popped(cs[p])], elem)
  {
    var c, d := cs[p], Popped(cs[p]);
    assert forall i :: 0 <= i < |d.nodes| ==> d.nodes[i] == c.nodes[if i < 1 then i else i + 1];
    forall e | e in c.nodes && e != c.nodes[1]
      ensures e in d.nodes
    {
      var i :| 0 <= i < |c.nodes| && c.nodes[i] == e;
      assert d.nodes[if i < 1 then i else i - 1] == e;
    }
  }

  /** The threads each list shows. */
  ghost predicate Shows(cs: Chains, qs: Threads) {
    qs.Keys == cs.Keys && forall p :: p in cs ==> qs[p] == Queue(cs[p])
  }

  /** `ChainsOk` and `Shows`, for proofs that only hand them on. */
  ghost predicate Wired(cs: Chains, qs: Threads, elem: Elems) {
    && qs.Keys == cs.Keys
    && forall z: nat {:trigger Look(OfQueues, z)} :: Look(OfQueues, z) ==> ChainsOk(cs, elem) && Shows(cs, qs)
  }

  /** The thread is on no list. */
  predicate Nowhere(qs: Threads, t: Tid) {
    forall q :: q in qs ==> t !in qs[q]
  }

  function PutIn(s: seq<Tid>, k: nat, t: Tid): seq<Tid>
    requires k <= |s|
  {
    s[..k] + [t] + s[k..]
  }

  /** Putting a thread that is on no list on list `p`, and what that may take for granted. */
  lemma WiredInsert(cs: Chains, qs: Threads, elem: Elems, p: Place, k: nat, t: Tid)
    requires Wired(cs, qs, elem) && p in cs && t in elem && 1 <= k < |cs[p].nodes| && Nowhere(qs, t)
    ensures k - 1 <= |qs[p]|
    ensures Wired(cs[p := Inserted(cs[p], k, elem[t])], qs[p := PutIn(qs[p], k - 1, t)], elem)
    ensures elem[t] !in cs[p].nodes && forall q :: q in cs && q != p ==>
              elem[t] !in cs[q].owned && cs[q].owned !! cs[p].owned
  {
    assert Look(OfQueues, 0);
    forall q | q in cs ensures elem[t] !in cs[q].owned { OnList(cs[q], elem, t); }
    assert ChainOk(cs[p], elem);
    InsertKeeps(cs, elem, p, k, t);
    InsertedQueue(cs[p], k, elem[t]);
  }

  /** Taking the front off list `p`. */
  lemma WiredPop(cs: Chains, qs: Threads, elem: Elems, p: Place)
    requires Wired(cs, qs, elem) && p in cs && NoDup(cs[p].nodes) && qs[p] != []
    ensures |cs[p].nodes| > 2 && Wired(cs[p := Popped(cs[p])], qs[p := qs[p][1..]], elem)
    ensures cs[p].nodes[1].item == qs[p][0] && qs[p][0] in elem
    ensures forall q :: q in cs && q != p ==> cs[q].owned !! cs[p].owned
  {
    assert Look(OfQueues, 0);
    assert ChainOk(cs[p], elem);
    PopKeeps(cs, elem, p);
    PoppedQueue(cs[p]);
  }

  lemma NewlyWired(cs: Chains, qs: Threads, elem: Elems, e: Elem<Tid>)
    requires elem == map[e.item := e] && qs.Keys == cs.Keys && forall p :: p in cs ==> qs[p] == []
    requires forall p :: p in cs ==>
               |cs[p].nodes| == 2 && cs[p].owned == {cs[p].nodes[0], cs[p].nodes[1]} && e !in cs[p].owned
    requires forall p, q :: p in cs && q in cs && p != q ==> cs[p].owned !! cs[q].owned
    ensures Wired(cs, qs, elem)
  {
  }

  /** A new thread structure. */
  lemma WiredAdopt(cs: Chains, qs: Threads, elem: Elems, t: Tid, e: Elem<Tid>)
    requires Wired(cs, qs, elem) && t !in elem && e.item == t && forall p :: p in cs ==> e !in cs[p].nodes
    ensures Wired(cs, qs, elem[t := e])
  {
    assert Look(OfQueues, 0);
    forall p | p in cs ensures ChainOk(cs[p], elem[t := e]) {
      assert ChainOk(cs[p], elem);
      assert |cs[p].nodes| >= 2 && cs[p].nodes[0] in cs[p].nodes && cs[p].nodes[|cs[p].nodes| - 1] in cs[p].nodes;
    }
  }

  /** The structure of a thread on no list goes. */
  lemma WiredForget(cs: Chains, qs: Threads, elem: Elems, t: Tid)
    requires Wired(cs, qs, elem) && t in elem && Nowhere(qs, t)
    ensures Wired(cs, qs, elem - {t})
  {
    assert Look(OfQueues, 0);
    forall p | p in cs ensures ChainOk(cs[p], elem - {t}) {
      assert ChainOk(cs[p], elem);
      OnList(cs[p], elem, t);
      forall i | 0 < i < |cs[p].nodes| - 1 ensures cs[p].nodes[i].item != t { assert cs[p].nodes[i] in cs[p].owned; }
    }
  }

  lemma WiredQueue(cs: Chains, qs: Threads, elem: Elems, p: Place)
    requires Wired(cs, qs, elem) && p in cs
    ensures qs[p] == Queue(cs[p])
  {
    assert Look(OfQueues, 0);
  }

  // ----------------------------------------------------------------- the lists

  class Lists {
    const at: map<Place, List<Tid>>
    ghost const objs: set<List<Tid>>     // the list structures
    var elem: Elems                      // the `elem` field of each thread structure
    ghost var chains: Chains             // what each list is made of
    ghost var queues: Threads            // the threads on each list, front to back
    ghost var all: set<Elem<Tid>>        // every node of a list or a thread

    /** The list is linked both ways between its sentinels. */
    ghost predicate Fine(p: Place, c: Chain)
      requires p in at
      reads at[p], at[p].repr
    {
      && at[p].full == c.nodes && at[p].repr == c.owned
      && forall z: nat {:trigger Look(p, z)} :: Look(p, z) ==> at[p].Valid()
    }

    /** The lists are linked as `cs` says. */
    ghost predicate AllFine(cs: Chains)
      reads `all, objs, all
    {
      && cs.Keys == at.Keys
      && forall z: nat {:trigger Look(OfLinks, z)} :: Look(OfLinks, z) ==>
           forall p :: p in at ==> at[p] in objs && at[p].repr <= all && Fine(p, cs[p])
    }

    lemma FineAt(p: Place, cs: Chains)
      requires AllFine(cs) && p in at
      ensures at[p] in objs && at[p].repr <= all && Fine(p, cs[p])
    {
      assert Look(OfLinks, 0);
    }

    /** The list structures are different, and no node of a thread is unknown. */
    ghost predicate Rooted()
      reads `elem, `all
    {
      && (forall t :: t in elem ==> elem[t] in all)
      && forall p, q :: p in at && q in at && p != q ==> at[p] != at[q]
    }

    /** Every list is linked, and no two share a node. */
    ghost predicate Valid()
      reads this, objs, all
    {
      AllFine(chains) && Wired(chains, queues, elem) && Rooted()
    }

    /** `Valid`, for proofs that only hand it on. */
    ghost predicate Sound()
      reads this, objs, all
    {
      queues.Keys == at.Keys && forall z: nat {:trigger Look(OfLists, z)} :: Look(OfLists, z) ==> Valid()
    }

    /** Empty lists and one thread. */
    constructor (at: map<Place, List<Tid>>, e: Elem<Tid>, ghost cs: Chains, ghost all: set<Elem<Tid>>)
      requires e in all
      requires var blank := Blanks(at, all) && FirstChains(at, e, cs); blank
      ensures this.at == at && elem == map[e.item := e] && this.all == all && queues.Keys == at.Keys
      ensures var sound := Sound(); sound
      ensures forall p :: p in queues ==> queues[p] == []
    {
      this.at, elem, chains, this.all := at, map[e.item := e], cs, all;
      objs := at.Values;
      queues := map p | p in at :: [];
      new;
      FirstSound(e);
    }

    /** Empty lists are in order. */
    lemma FirstSound(e: Elem<Tid>)
      requires objs == at.Values && e in all && elem == map[e.item := e] && queues == map p | p in at :: []
      requires var blank := Blanks(at, all) && FirstChains(at, e, chains); blank
      ensures var sound := Sound(); sound
    {
      FirstFine(chains, e);
      FirstWired(at, all, e, chains, queues);
      assert var rooted := Rooted(); rooted;
    }

    lemma FirstFine(cs: Chains, e: Elem<Tid>)
      requires objs == at.Values
      requires var blank := Blanks(at, all) && FirstChains(at, e, cs); blank
      ensures var fine := AllFine(cs); fine
    {
      forall p | p in at
        ensures at[p] in objs && at[p].repr <= all && Fine(p, cs[p])
      {
        assert Blank(at[p]);
      }
    }

    /** The lists have been changed to what `cs` and `qs` say. */
    ghost method Record(cs: Chains, qs: Threads)
      requires var fine := AllFine(cs) && Wired(cs, qs, elem) && Rooted(); fine
      modifies `chains, `queues
      ensures var sound := Sound(); sound
      ensures chains == cs && queues == qs
    {
      chains, queues := cs, qs;
    }

    method InsertNode(p: Place, before: Elem<Tid>, e: Elem<Tid>, ghost c: Chain, ghost k: nat)
      requires p in at && Fine(p, c) && 1 <= k < |c.nodes| && c.nodes[k] == before && e !in c.nodes
      modifies at[p], at[p].repr, e
      ensures Fine(p, Inserted(c, k, e)) && unchanged(this)
    {
      assert Look(p, 0);
      at[p].Insert(before, e, k);
    }

    method InsertAmong(p: Place, before: Elem<Tid>, e: Elem<Tid>, ghost cs: Chains, ghost k: nat)
      requires p in at && AllFine(cs) && 1 <= k < |cs[p].nodes| && cs[p].nodes[k] == before && e !in cs[p].nodes
               && e in all
      requires forall q :: q in at && q != p ==> at[q] != at[p] && e !in cs[q].owned && cs[q].owned !! cs[p].owned
      modifies at[p], at[p].repr, e
      ensures AllFine(cs[p := Inserted(cs[p], k, e)]) && unchanged(this)
    {
      assert Look(OfLinks, 0);
      InsertNode(p, before, e, cs[p], k);
      forall q | q in at && q != p ensures Fine(q, cs[q]) { assert old(Fine(q, cs[q])); }
    }

    /** The nodes of a list are different, and the last one is the tail. */
    lemma Ends(p: Place, c: Chain)
      requires p in at && Fine(p, c)
      ensures |c.nodes| >= 2 && c.nodes[0] == at[p].head && c.nodes[|c.nodes| - 1] == at[p].tail && NoDup(c.nodes)
    {
      assert Look(p, 0);
      DistinctPairs(at[p].full);
    }

    lemma Known(p: Place)
      requires Sound() && p in at
      ensures p in chains && Fine(p, chains[p]) && p in queues && queues[p] == Queue(chains[p])
    {
      assert Look(OfLists, 0);
      FineAt(p, chains);
      WiredQueue(chains, queues, elem, p);
    }

    /** list_insert of a thread's node before a node of a list. */
    method Insert(p: Place, before: Elem<Tid>, t: Tid, ghost k: nat)
      requires Sound() && p in at && t in elem && Nowhere(queues, t)
      requires p in chains && 1 <= k < |chains[p].nodes| && chains[p].nodes[k] == before
      modifies `chains, `queues, objs, all
      ensures var sound := Sound(); sound
      ensures k - 1 <= |old(queues[p])| && queues == old(queues)[p := PutIn(old(queues[p]), k - 1, t)]
    {
      assert Look(OfLists, 0);
      ghost var cs, qs := chains, queues;
      FineAt(p, cs);
      WiredInsert(cs, qs, elem, p, k, t);
      InsertAmong(p, before, elem[t], cs, k);
      Record(cs[p := Inserted(cs[p], k, elem[t])], qs[p := PutIn(qs[p], k - 1, t)]);
    }

    /** list_push_back */
    method PushBack(p: Place, t: Tid)
      requires Sound() && p in at && t in elem && Nowhere(queues, t)
      modifies `chains, `queues, objs, all
      ensures Sound() && queues == old(queues)[p := old(queues[p]) + [t]]
    {
      Known(p);
      Ends(p, chains[p]);
      assert PutIn(queues[p], |queues[p]|, t) == queues[p] + [t];
      Insert(p, at[p].tail, t, |chains[p].nodes| - 1);
    }

    /** The scan of list_insert_ordered: the first node that `x` comes before. */
    method Seek(p: Place, less: Less<Tid>, x: Tid) returns (before: Elem<Tid>, ghost k: nat)
      requires p in at && p in chains && Fine(p, chains[p])
      ensures 0 < k < |chains[p].nodes| && chains[p].nodes[k] == before
      ensures var s := Queue(chains[p]);
              (forall i :: 0 <= i < k - 1 ==> !less(x, s[i])) && (k - 1 < |s| ==> less(x, s[k - 1]))
    {
      assert Look(p, 0);
      ghost var full := at[p].full;
      ghost var inner := full[1..|full| - 1];
      assert full[0].next == full[1];
      before, k := at[p].head.next, 1;
      while before != at[p].tail && !less(x, before.item)
        invariant 1 <= k < |full| && before == full[k] && forall i :: 0 <= i < k - 1 ==> !less(x, inner[i].item)
        decreases |full| - k
      {
        assert full[k].next == full[k + 1] && inner[k - 1] == full[k];
        before, k := before.next, k + 1;
      }
      if k < |full| - 1 {
        DistinctAt(full, k, |full| - 1);
        assert inner[k - 1] == full[k];
      }
    }

    /** list_insert_ordered */
    method InsertOrdered(p: Place, t: Tid, less: Less<Tid>) returns (ghost k: nat)
      requires Sound() && p in at && t in elem && Nowhere(queues, t)
      modifies `chains, `queues, objs, all
      ensures Sound() && k <= |old(queues[p])| && queues == old(queues)[p := PutIn(old(queues[p]), k, t)]
      ensures forall i :: 0 <= i < k ==> !less(t, old(queues[p])[i])
      ensures k < |old(queues[p])| ==> less(t, old(queues[p])[k])
    {
      Known(p);
      var before;
      before, k := Seek(p, less, t);
      Insert(p, before, t, k);
      k := k - 1;
    }

    method PopNode(p: Place, ghost c: Chain) returns (e: Elem<Tid>)
      requires p in at && Fine(p, c) && |c.nodes| > 2
      modifies at[p], at[p].repr
      ensures Fine(p, Popped(c)) && e == c.nodes[1] && unchanged(this)
    {
      assert Look(p, 0);
      assert at[p].full[0].next == at[p].full[1];
      e := at[p].head.next;
      var _ := at[p].Remove(e, 1);
    }

    method PopAmong(p: Place, ghost cs: Chains) returns (e: Elem<Tid>)
      requires p in at && AllFine(cs) && |cs[p].nodes| > 2
      requires forall q :: q in at && q != p ==> at[q] != at[p] && cs[q].owned !! cs[p].owned
      modifies at[p], at[p].repr
      ensures AllFine(cs[p := Popped(cs[p])]) && e == cs[p].nodes[1] && unchanged(this)
    {
      assert Look(OfLinks, 0);
      e := PopNode(p, cs[p]);
      forall q | q in at && q != p ensures Fine(q, cs[q]) { assert old(Fine(q, cs[q])); }
    }

    lemma FrontGoes(p: Place)
      requires p in at && p in chains && Fine(p, chains[p]) && Wired(chains, queues, elem) && queues[p] != []
      ensures |chains[p].nodes| > 2 && Wired(chains[p := Popped(chains[p])], queues[p := queues[p][1..]], elem)
      ensures chains[p].nodes[1].item == queues[p][0] && queues[p][0] in elem
      ensures forall q :: q in chains && q != p ==> chains[q].owned !! chains[p].owned
    {
      Ends(p, chains[p]);
      WiredPop(chains, queues, elem, p);
    }

    /** list_pop_front */
    method PopFront(p: Place) returns (t: Tid)
      requires Sound() && p in at && queues[p] != []
      modifies `chains, `queues, objs, all
      ensures var sound := Sound(); sound
      ensures t == old(queues[p][0]) && t in elem && queues == old(queues)[p := old(queues[p])[1..]]
    {
      assert Look(OfLists, 0);
      ghost var cs, qs := chains, queues;
      FineAt(p, cs);
      FrontGoes(p);
      var e := PopAmong(p, cs);
      t := e.item;
      Record(cs[p := Popped(cs[p])], qs[p := qs[p][1..]]);
    }

    /** list_empty */
    method Empty(p: Place) returns (b: bool)
      requires Sound() && p in at
      ensures b <==> queues[p] == []
    {
      Known(p);
      Ends(p, chains[p]);
      assert Look(p, 0);
      b := at[p].Empty();
    }

    /** list_front */
    method Front(p: Place) returns (t: Tid)
      requires Sound() && p in at && queues[p] != []
      ensures t == queues[p][0]
    {
      Known(p);
      Ends(p, chains[p]);
      assert Look(p, 0);
      assert at[p].full[0].next == at[p].full[1];
      t := at[p].head.next.item;
    }

    /** A new thread structure: its node is on no list. */
    method Adopt(t: Tid)
      requires Sound() && t !in elem
      modifies `elem, `all
      ensures Sound()
      ensures fresh(all - old(all))
      ensures elem.Keys == old(elem.Keys) + {t} && fresh(elem[t])
              && (forall u :: u in old(elem) ==> elem[u] == old(elem[u]))
    {
      var e := new Elem(t);
      Enrol(t, e);
    }

    method Enrol(t: Tid, e: Elem<Tid>)
      requires Sound() && t !in elem && e.item == t && forall p :: p in chains ==> e !in chains[p].nodes
      modifies `elem, `all
      ensures var sound := Sound(); sound
      ensures elem == old(elem)[t := e] && all == old(all) + {e}
    {
      assert Look(OfLists, 0);
      WiredAdopt(chains, queues, elem, t, e);
      Widen(e);
      elem := elem[t := e];
    }

    ghost method Widen(e: Elem<Tid>)
      requires AllFine(chains)
      modifies `all
      ensures var fine := AllFine(chains); fine
      ensures all == old(all) + {e}
    {
      assert Look(OfLinks, 0);
      all := all + {e};
    }

    /** The page of a thread on no list is freed. */
    method Forget(t: Tid)
      requires Sound() && t in elem && Nowhere(queues, t)
      modifies `elem
      ensures Sound()
      ensures elem == old(elem) - {t}
    {
      assert Look(OfLists, 0);
      WiredForget(chains, queues, elem, t);
      elem := elem - {t};
    }

    /** What is true of a thread on list `q` and the tail of another list `p`. */
    lemma Astray(p: Place, q: Place, t: Tid) returns (i: nat)
      requires Valid() && p in at && q in at && p != q && t in elem && q in queues && t in queues[q]
      ensures 0 < i < |chains[q].nodes| - 1 && chains[q].nodes[i] == elem[t]
      ensures at[p].tail !in chains[q].nodes && at[p].tail.prev != null && at[p].tail.prev !in chains[q].nodes
      ensures at[p].tail.prev != at[p].tail
      ensures NoDup(chains[q].nodes) && at[p].tail.next == null && at[p].tail.prev in at[p].repr
              && at[p].tail in at[p].repr
      ensures forall j :: 0 <= j < i ==> chains[q].nodes[j].next == chains[q].nodes[j + 1]
    {
      var c := chains[q].nodes;
      FineAt(p, chains);
      FineAt(q, chains);
      Ends(q, chains[q]);
      Ends(p, chains[p]);
      WiredQueue(chains, queues, elem, q);
      assert Look(p, 0) && Look(q, 0) && Look(OfQueues, 0);
      assert ChainOk(chains[q], elem) && ChainOk(chains[p], elem);
      OnList(chains[q], elem, t);
      i :| 0 <= i < |c| && c[i] == elem[t];
      var d := at[p].full;
      assert d[|d| - 1].prev == d[|d| - 2] && d[|d| - 2] in at[p].repr && d[|d| - 1] in at[p].repr;
    }

    /** list_push_back of a thread that is on another list.  From then on no way leads
        from that list's head to its tail. */
    method PushTwice(p: Place, q: Place, t: Tid)
      requires Valid() && p in at && q in at && p != q && t in elem && q in queues && t in queues[q]
      modifies all
      ensures forall way: seq<Elem<Tid>> :: !KernelList.Leads(way, at[q].head, at[q].tail)
    {
      ghost var c := chains[q].nodes;
      ghost var i := Astray(p, q, t);
      FineAt(p, chains);
      FineAt(q, chains);
      Ends(q, chains[q]);
      var e, tail := elem[t], at[p].tail;
      e.prev := tail.prev;
      e.next := tail;
      tail.prev.next := e;
      tail.prev := e;
      forall way: seq<Elem<Tid>> | KernelList.Leads(way, at[q].head, at[q].tail)
        ensures false
      {
        var k := NoWay(way, c, i, tail, 0);
      }
    }
  }

  /** Following `next` along `c` leads to `end`, so a chain to the last of `c` breaks off
      somewhere. */
  lemma {:induction false} NoWay(full: seq<Elem<Tid>>, c: seq<Elem<Tid>>, i: nat, end: Elem<Tid>, j: nat)
      returns (k: nat)
    requires |full| >= 2 && |c| >= 2 && full[|full| - 1] == c[|c| - 1] && i < |c| - 1 && NoDup(c)
    requires forall m :: 0 <= m < i ==> c[m].next == c[m + 1]
    requires c[i].next == end && end.next == null && end !in c
    requires j <= i && j < |full| && full[j] == c[j]
    ensures k + 1 < |full| && full[k].next != full[k + 1]
    decreases i - j
  {
    assert c[|c| - 1] != c[j] && c[|c| - 1] != end;
    if full[j].next != full[j + 1] {
      k := j;
    } else if j < i {
      k := NoWay(full, c, i, end, j + 1);
    } else {
      k := i + 1;
    }
  }

  /** An empty list. */
  ghost predicate Blank(l: List<Tid>)
    reads l, l.repr
  {
    l.full == [l.head, l.tail] && l.repr == {l.head, l.tail} && l.Valid()
  }

  /** Empty lists that share nothing. */
  ghost predicate Blanks(at: map<Place, List<Tid>>, all: set<Elem<Tid>>)
    reads at.Values, all
  {
    && (forall p :: p in at ==> at[p].repr <= all && Blank(at[p]))
    && forall p, q :: p in at && q in at && p != q ==> at[p] != at[q] && at[p].repr !! at[q].repr
  }

  /** The chains of empty lists, which do not have the thread's node. */
  ghost predicate FirstChains(at: map<Place, List<Tid>>, e: Elem<Tid>, cs: Chains) {
    && cs.Keys == at.Keys
    && forall p :: p in at ==>
         cs[p] == Chain([at[p].head, at[p].tail], {at[p].head, at[p].tail}) && e !in cs[p].owned
  }

  lemma FirstWired(at: map<Place, List<Tid>>, all: set<Elem<Tid>>, e: Elem<Tid>, cs: Chains, qs: Threads)
    requires qs.Keys == cs.Keys && forall p :: p in cs ==> qs[p] == []
    requires var blank := Blanks(at, all) && FirstChains(at, e, cs); blank
    ensures Wired(cs, qs, map[e.item := e])
  {
    assert forall p :: p in at ==> Blank(at[p]) && at[p].repr == cs[p].owned;
    NewlyWired(cs, qs, map[e.item := e], e);
  }

  /** list_init of a new list. */
  method NewList() returns (l: List<Tid>)
    ensures fresh(l) && Blank(l) && fresh(l.repr)
  {
    var head := new Elem(0);
    var tail := new Elem(0);
    l := new List(head, tail);
  }

  /** list_init of a list for each place. */
  method NewLists(places: seq<Place>) returns (at: map<Place, List<Tid>>, ghost all: set<Elem<Tid>>)
    ensures (forall p :: p in at <==> p in places) && Blanks(at, all) && fresh(all) && forall p :: p in at ==>
              fresh(at[p])
  {
    at, all := map[], {};
    var i := 0;
    while i < |places|
      invariant i <= |places| && (forall p :: p in at <==> p in places[..i])
      invariant Blanks(at, all) && fresh(all) && forall p :: p in at ==> fresh(at[p])
    {
      var l := NewList();
      at, all := at[places[i] := l], all + l.repr;
      i := i + 1;
    }
  }

  /** list_init of the kernel's lists, and the structure of the initial thread. */
  method Boot(places: seq<Place>, t: Tid) returns (r: Lists)
    ensures fresh(r) && fresh(r.all) && r.Sound() && r.elem.Keys == {t}
    ensures forall p :: p in r.queues <==> p in places
    ensures forall p :: p in r.queues ==> r.queues[p] == []
  {
    ghost var all;
    var at;
    at, all := NewLists(places);
    var e := new Elem(t);
    ghost var cs := map p | p in at :: Chain([at[p].head, at[p].tail], {at[p].head, at[p].tail});
    Together(at, all, e, cs);
    r := new Lists(at, e, cs, all + {e});
  }

  lemma Together(at: map<Place, List<Tid>>, all: set<Elem<Tid>>, e: Elem<Tid>, cs: Chains)
    requires e !in all && cs == map p | p in at :: Chain([at[p].head, at[p].tail], {at[p].head, at[p].tail})
    requires var blank := Blanks(at, all); blank
    ensures var blank := Blanks(at, all + {e}) && FirstChains(at, e, cs); blank
  {
    forall p | p in at ensures e !in cs[p].owned { assert Blank(at[p]); }
  }
}
