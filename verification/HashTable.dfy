/** The growing hash table (libevent/ht-internal.h): buckets of linked elements, and growth into a
    new table or within the old one. */
module HashTable {

  /** An element with its HT_ENTRY.  `hash` is what the table's hash function gives for it; the
      source computes it again whenever it is needed. */
  class Elem {
    const key: int
    const hash: nat
    var next: Elem?

    constructor (key: int, hash: nat)
      ensures this.key == key && this.hash == hash && next == null
    {
      this.key, this.hash := key, hash;
      next := null;
    }
  }

  // ---------------------------------------------------------------- linked chains

  ghost predicate Node(c: seq<Elem>, k: nat)
    reads c
  {
    k < |c| && c[k].next == if k + 1 < |c| then c[k + 1] else null
  }

  function HeadOf(c: seq<Elem>): Elem? {
    if c == [] then null else c[0]
  }

  ghost predicate NoDup(c: seq<Elem>) {
    forall i, j :: 0 <= i < j < |c| ==> c[i] != c[j]
  }

  /** The elements of `c` are linked one to the next from `head` on. */
  ghost predicate Chained(head: Elem?, c: seq<Elem>)
    reads c
  {
    head == HeadOf(c) && forall k {:trigger Node(c, k)} :: 0 <= k < |c| ==> Node(c, k)
  }

  /** What follows an element is linked from it on. */
  lemma {:induction false} ChainedTail(head: Elem?, c: seq<Elem>, k: nat)
    requires Chained(head, c) && k < |c|
    ensures Chained(c[k].next, c[k + 1..])
  {
    assert Node(c, k);
    var d := c[k + 1..];
    forall i | 0 <= i < |d| ensures Node(d, i) { assert Node(c, k + 1 + i); }
  }

  function Dropped(c: seq<Elem>, k: nat): seq<Elem>
    requires k < |c|
  {
    c[..k] + c[k + 1..]
  }

  lemma {:induction false} DroppedHas(c: seq<Elem>, k: nat)
    requires k < |c| && NoDup(c)
    ensures NoDup(Dropped(c, k)) && c[k] !in Dropped(c, k)
    ensures forall e :: e in c <==> e in Dropped(c, k) || e == c[k]
  {
    var d := Dropped(c, k);
    forall e | e in c && e != c[k] ensures e in d {
      var i :| 0 <= i < |c| && c[i] == e;
      assert d[if i < k then i else i - 1] == e;
    }
  }

  // ---------------------------------------------------------------- lists in a table

  ghost predicate Bucket(t: array<Elem?>, cs: seq<seq<Elem>>, all: set<Elem>, b: nat)
    reads t, all
  {
    b < |cs| && b < t.Length && (forall e :: e in cs[b] ==> e in all) && Chained(t[b], cs[b]) && NoDup(cs[b])
  }

  /** Every bucket holds its chain. */
  ghost predicate Lists(t: array<Elem?>, cs: seq<seq<Elem>>, all: set<Elem>)
    reads t, all
  {
    t.Length == |cs| && forall b {:trigger Bucket(t, cs, all, b)} :: 0 <= b < |cs| ==> Bucket(t, cs, all, b)
  }

  ghost predicate InChain(cs: seq<seq<Elem>>, b: nat, older e: Elem) {
    b < |cs| && e in cs[b]
  }

  /** Every element is in the chain where it is said to be, and in no other. */
  ghost predicate Placed(cs: seq<seq<Elem>>, at: map<Elem, nat>) {
    (forall e {:trigger e in at} :: e in at ==> InChain(cs, at[e], e)) &&
    forall b, e {:trigger InChain(cs, b, e)} :: InChain(cs, b, e) ==> e in at && at[e] == b
  }

  /** The bucket that the hash of each element says. */
  ghost function Homes(all: set<Elem>, len: nat): map<Elem, nat>
    requires len > 0
  {
    map e | e in all :: e.hash % len
  }

  /** An element is put first into a bucket. */
  method Push(t: array<Elem?>, b: nat, e: Elem, ghost c: seq<Elem>)
    requires b < t.Length && Chained(t[b], c) && e !in c
    modifies t, e`next
    ensures t[b] == e && Chained(t[b], [e] + c) && forall i :: 0 <= i < t.Length && i != b ==> t[i] == old(t[i])
  {
    e.next := t[b];
    t[b] := e;
    forall k | 0 <= k < |c| + 1 ensures Node([e] + c, k) {
      if k > 0 { assert Node(c, k - 1); }
    }
  }

  /** The first element is taken out of its bucket. */
  method UnlinkFirst(t: array<Elem?>, b: nat, e: Elem, ghost c: seq<Elem>)
    requires b < t.Length && Chained(t[b], c) && c != [] && e == c[0]
    modifies t
    ensures Chained(t[b], Dropped(c, 0))
    ensures forall i :: 0 <= i < t.Length && i != b ==> t[i] == old(t[i])
  {
    assert Node(c, 0);
    t[b] := e.next;
    var d := Dropped(c, 0);
    forall i | 0 <= i < |d| ensures Node(d, i) { assert Node(c, i + 1); }
  }

  /** An element is taken out behind another one. */
  method UnlinkAfter(head: Elem?, prev: Elem, e: Elem, ghost c: seq<Elem>, ghost k: nat)
    requires Chained(head, c) && NoDup(c) && 0 < k < |c| && e == c[k] && prev == c[k - 1]
    modifies prev`next
    ensures Chained(head, Dropped(c, k))
  {
    assert Node(c, k);
    prev.next := e.next;
    var d := Dropped(c, k);
    forall i | 0 <= i < |d| ensures Node(d, i) {
      assert old(Node(c, if i < k then i else i + 1));
    }
  }

  // ---------------------------------------------------------------- growing into a new table

  /** The elements of the chains before `b`, and the first `k` of that one. */
  ghost function Before(cs: seq<seq<Elem>>, at: map<Elem, nat>, b: nat, k: nat): set<Elem>
    requires b < |cs| && k <= |cs[b]|
  {
    set e | e in at && (at[e] < b || (at[e] == b && e in cs[b][..k]))
  }

  lemma {:induction false} BeforeStep(cs: seq<seq<Elem>>, at: map<Elem, nat>, b: nat, k: nat)
    requires Placed(cs, at) && b < |cs| && k < |cs[b]| && NoDup(cs[b])
    ensures Before(cs, at, b, k + 1) == Before(cs, at, b, k) + {cs[b][k]} && cs[b][k] !in Before(cs, at, b, k)
  {
    assert InChain(cs, b, cs[b][k]);
    assert cs[b][..k + 1] == cs[b][..k] + [cs[b][k]];
  }

  lemma {:induction false} BeforeNext(cs: seq<seq<Elem>>, at: map<Elem, nat>, b: nat)
    requires Placed(cs, at) && b + 1 < |cs|
    ensures Before(cs, at, b, |cs[b]|) == Before(cs, at, b + 1, 0)
  {
    assert cs[b][..|cs[b]|] == cs[b];
    forall e | e in at ensures at[e] == b ==> e in cs[b] { assert InChain(cs, at[e], e); }
  }

  lemma {:induction false} BeforeLast(cs: seq<seq<Elem>>, at: map<Elem, nat>)
    requires Placed(cs, at) && |cs| > 0
    ensures Before(cs, at, |cs| - 1, |cs[|cs| - 1]|) == at.Keys
  {
    var b := |cs| - 1;
    assert cs[b][..|cs[b]|] == cs[b];
    forall e: Elem | e in at ensures at[e] <= b && (at[e] == b ==> e in cs[b]) { assert InChain(cs, at[e], e); }
  }

  /** An element that is new in the table is put into the chain of its home. */
  lemma {:induction false} PlacedMore(cs: seq<seq<Elem>>, at: map<Elem, nat>, e: Elem, b: nat)
    requires Placed(cs, at) && e !in at && b < |cs|
    ensures Placed(cs[b := [e] + cs[b]], at[e := b])
  {
    var ds, at' := cs[b := [e] + cs[b]], at[e := b];
    forall f | f in at' ensures InChain(ds, at'[f], f) {
      if f != e { assert InChain(cs, at[f], f); }
    }
    forall c, f | InChain(ds, c, f) ensures f in at' && at'[f] == c {
      if !(c == b && f == e) { assert InChain(cs, c, f); }
    }
  }

  /** The same for the lists. */
  method PushNew(t: array<Elem?>, b: nat, e: Elem, ghost cs: seq<seq<Elem>>, ghost all: set<Elem>)
    returns (ghost ds: seq<seq<Elem>>)
    requires Lists(t, cs, all) && e !in all && b < |cs|
    modifies t, e`next
    ensures ds == cs[b := [e] + cs[b]] && Lists(t, ds, all + {e})
  {
    ds := cs[b := [e] + cs[b]];
    assert Bucket(t, cs, all, b);
    ghost var before := t[..];
    forall c | 0 <= c < |cs| ensures Chained(before[c], cs[c]) && NoDup(cs[c]) && e !in cs[c] &&
      forall f :: f in cs[c] ==> f in all {
      assert Bucket(t, cs, all, c);
    }
    Push(t, b, e, cs[b]);
    forall c | 0 <= c < |ds| ensures Bucket(t, ds, all + {e}, c) {
      if c != b { assert t[c] == before[c] && ds[c] == cs[c]; }
    }
  }

  /** The chains from `b` on are as they were. */
  ghost predicate Untouched(t: array<Elem?>, cs: seq<seq<Elem>>, all: set<Elem>, b: nat)
    reads t, all
  {
    t.Length == |cs| && forall c {:trigger Bucket(t, cs, all, c)} :: b <= c < |cs| ==> Bucket(t, cs, all, c)
  }

  /** The new lists hold exactly the elements in `done`, each in its home. */
  ghost predicate Rehashed(t: array<Elem?>, ds: seq<seq<Elem>>, done: set<Elem>)
    reads t, done
  {
    t.Length > 0 && Lists(t, ds, done) && Placed(ds, Homes(done, t.Length))
  }

  /** One element moves over. */
  method MoveOne(t: array<Elem?>, e: Elem, ghost ds: seq<seq<Elem>>, ghost done: set<Elem>)
    returns (ghost es: seq<seq<Elem>>)
    requires Rehashed(t, ds, done) && e !in done
    modifies t, e`next
    ensures Rehashed(t, es, done + {e})
  {
    var b := e.hash % t.Length;
    PlacedMore(ds, Homes(done, t.Length), e, b);
    es := PushNew(t, b, e, ds, done);
    assert Homes(done + {e}, t.Length) == Homes(done, t.Length)[e := b];
  }

  /** The chains that are still to move over do not notice. */
  method MoveKeeping(t: array<Elem?>, b: nat, newT: array<Elem?>, e: Elem, ghost cs: seq<seq<Elem>>,
                     ghost all: set<Elem>, ghost ds: seq<seq<Elem>>, ghost done: set<Elem>)
    returns (ghost es: seq<seq<Elem>>)
    requires t != newT && Rehashed(newT, ds, done) && e !in done && Untouched(t, cs, all, b)
    requires forall c :: b <= c < |cs| ==> e !in cs[c]
    modifies newT, e`next
    ensures Rehashed(newT, es, done + {e}) && Untouched(t, cs, all, b)
  {
    es := MoveOne(newT, e, ds, done);
    forall c | b <= c < |cs| ensures Bucket(t, cs, all, c) { assert old(Bucket(t, cs, all, c)); }
  }

  lemma {:induction false} OnlyHere(cs: seq<seq<Elem>>, at: map<Elem, nat>, b: nat, e: Elem)
    requires Placed(cs, at) && b < |cs| && e in cs[b]
    ensures forall c :: 0 <= c < |cs| && c != b ==> e !in cs[c]
  {
    assert InChain(cs, b, e);
    forall c | 0 <= c < |cs| && c != b ensures e !in cs[c] { assert !InChain(cs, c, e); }
  }

  /** One chain moves over (libevent/ht-internal.h:334-341). */
  method MoveChain(t: array<Elem?>, b: nat, newT: array<Elem?>, ghost cs: seq<seq<Elem>>, ghost all: set<Elem>,
                   ghost at: map<Elem, nat>, ghost ds0: seq<seq<Elem>>)
    returns (ghost ds: seq<seq<Elem>>)
    requires t != newT && b < |cs| && Placed(cs, at) && at.Keys == all && Untouched(t, cs, all, b)
    requires Rehashed(newT, ds0, Before(cs, at, b, 0))
    modifies newT, all`next
    ensures Rehashed(newT, ds, Before(cs, at, b, |cs[b]|)) && Untouched(t, cs, all, b + 1)
  {
    assert Bucket(t, cs, all, b);
    ds := ds0;
    var elm := t[b];
    ghost var k := 0;
    assert cs[b][0..] == cs[b];
    while elm != null
      invariant k <= |cs[b]| && Chained(elm, cs[b][k..]) && Rehashed(newT, ds, Before(cs, at, b, k)) &&
                Untouched(t, cs, all, b + 1)
      decreases |cs[b]| - k
    {
      var next := elm.next;
      assert elm == cs[b][k..][0] == cs[b][k];
      ChainedTail(elm, cs[b][k..], 0);
      assert cs[b][k..][1..] == cs[b][k + 1..];
      BeforeStep(cs, at, b, k);
      OnlyHere(cs, at, b, elm);
      ds := MoveKeeping(t, b + 1, newT, elm, cs, all, ds, Before(cs, at, b, k));
      k := k + 1;
      elm := next;
    }
  }

  /** Every element moves over (libevent/ht-internal.h:328-345). */
  method MoveAll(t: array<Elem?>, newT: array<Elem?>, ghost cs: seq<seq<Elem>>, ghost all: set<Elem>,
                 ghost at: map<Elem, nat>)
    returns (ghost ds: seq<seq<Elem>>)
    requires t != newT && newT.Length > 0 && |cs| > 0 && Lists(t, cs, all) && Placed(cs, at) && at.Keys == all
    requires forall b :: 0 <= b < newT.Length ==> newT[b] == null
    modifies newT, all`next
    ensures Rehashed(newT, ds, all)
  {
    ds := seq(newT.Length, i => []);
    forall b | 0 <= b < |ds| ensures Bucket(newT, ds, {}, b) {}
    assert Before(cs, at, 0, 0) == {} && Homes({}, newT.Length) == map[];
    var b := 0;
    while b < t.Length
      invariant b <= |cs| && Untouched(t, cs, all, b)
      invariant Rehashed(newT, ds, if b < |cs| then Before(cs, at, b, 0) else all)
    {
      ds := MoveChain(t, b, newT, cs, all, at, ds);
      if b + 1 < |cs| { BeforeNext(cs, at, b); } else { BeforeLast(cs, at); }
      b := b + 1;
    }
  }

  // ---------------------------------------------------------------- growing within the table

  /** Every element is in one list, and the lists before `b` and from `oldLen` on hold only
      elements that are at home there. */
  ghost predicate Sorting(t: array<Elem?>, cs: seq<seq<Elem>>, all: set<Elem>, at: map<Elem, nat>, b: nat, oldLen: nat)
    reads t, all
  {
    t.Length > 0 && Lists(t, cs, all) && Placed(cs, at) && at.Keys == all &&
    forall e {:trigger at[e]} :: e in all && (at[e] < b || at[e] >= oldLen) ==> at[e] == e.hash % t.Length
  }

  /** An element that is not at home goes to the front of the list of its home. */
  lemma {:induction false} PlacedMoved(cs: seq<seq<Elem>>, at: map<Elem, nat>, b: nat, k: nat, c: nat)
    requires Placed(cs, at) && b < |cs| && k < |cs[b]| && NoDup(cs[b]) && c < |cs| && c != b
    ensures Placed(cs[b := Dropped(cs[b], k)][c := [cs[b][k]] + cs[c]], at[cs[b][k] := c])
  {
    var e := cs[b][k];
    var ds, at' := cs[b := Dropped(cs[b], k)][c := [e] + cs[c]], at[e := c];
    DroppedHas(cs[b], k);
    assert InChain(cs, b, e);
    forall f | f in at' ensures InChain(ds, at'[f], f) {
      if f != e { assert InChain(cs, at[f], f); }
    }
    forall d, f | InChain(ds, d, f) ensures f in at' && at'[f] == d {
      if f != e { assert InChain(cs, d, f); }
      assert InChain(cs, d, f) || (d == c && f == e);
    }
  }

  /** The element at `k` in the list of `b` goes to the front of the list of `c`
      (libevent/ht-internal.h:359-361). */
  method MoveWithin(t: array<Elem?>, b: nat, prev: Elem?, e: Elem, c: nat, ghost cs: seq<seq<Elem>>,
                    ghost all: set<Elem>, ghost at: map<Elem, nat>, ghost k: nat)
    returns (ghost ds: seq<seq<Elem>>)
    requires Lists(t, cs, all) && Placed(cs, at) && b < |cs| && c < |cs| && c != b
    requires k < |cs[b]| && e == cs[b][k] && prev == if k == 0 then null else cs[b][k - 1]
    modifies t, all`next
    ensures ds == cs[b := Dropped(cs[b], k)][c := [e] + cs[c]] && Lists(t, ds, all)
  {
    ds := cs[b := Dropped(cs[b], k)][c := [e] + cs[c]];
    assert Bucket(t, cs, all, b) && Bucket(t, cs, all, c);
    OnlyHere(cs, at, b, e);
    DroppedHas(cs[b], k);
    if prev == null {
      UnlinkFirst(t, b, e, cs[b]);
    } else {
      OnlyHere(cs, at, b, prev);
      UnlinkAfter(t[b], prev, e, cs[b], k);
    }
    Push(t, c, e, cs[c]);
    forall d | 0 <= d < |ds| ensures Bucket(t, ds, all, d) {
      assert old(Bucket(t, cs, all, d));
      if d != b && d != c { assert t[d] == old(t[d]); }
    }
  }

  /** It is at home there, so nothing that was in order gets out of order. */
  method MoveHome(t: array<Elem?>, b: nat, ghost oldLen: nat, prev: Elem?, e: Elem, ghost cs0: seq<seq<Elem>>,
                  ghost all: set<Elem>, ghost at0: map<Elem, nat>, ghost k: nat)
    returns (ghost cs: seq<seq<Elem>>, ghost at: map<Elem, nat>)
    requires Sorting(t, cs0, all, at0, b, oldLen) && b < oldLen <= t.Length && e.hash % t.Length != b
    requires k < |cs0[b]| && e == cs0[b][k] && prev == if k == 0 then null else cs0[b][k - 1]
    modifies t, all`next
    ensures Sorting(t, cs, all, at, b, oldLen) && cs[b] == Dropped(cs0[b], k)
  {
    var c := e.hash % t.Length;
    assert Bucket(t, cs0, all, b) && InChain(cs0, b, e);
    PlacedMoved(cs0, at0, b, k, c);
    cs := MoveWithin(t, b, prev, e, c, cs0, all, at0, k);
    at := at0[e := c];
  }

  /** What is behind the place where the walk is. */
  method Behind(t: array<Elem?>, b: nat, prev: Elem?, ghost c: seq<Elem>, ghost k: nat) returns (e: Elem?)
    requires b < t.Length && Chained(t[b], c) && k <= |c| && prev == if k == 0 then null else c[k - 1]
    ensures e == HeadOf(c[k..])
  {
    if prev == null {
      e := t[b];
    } else {
      assert Node(c, k - 1);
      e := prev.next;
    }
  }

  /** The list of one old bucket is walked, and what is not at home there is moved: to a bucket that
      has been walked, to one that will be, or to a new one (libevent/ht-internal.h:353-363). */
  method SortChain(t: array<Elem?>, b: nat, ghost oldLen: nat, ghost cs0: seq<seq<Elem>>, ghost all: set<Elem>,
                   ghost at0: map<Elem, nat>)
    returns (ghost cs: seq<seq<Elem>>, ghost at: map<Elem, nat>)
    requires b < oldLen <= t.Length && Sorting(t, cs0, all, at0, b, oldLen)
    modifies t, all`next
    ensures Sorting(t, cs, all, at, b + 1, oldLen)
  {
    cs, at := cs0, at0;
    var prev: Elem? := null;
    var e: Elem? := t[b];
    ghost var k := 0;
    assert Bucket(t, cs, all, b) && cs[b][0..] == cs[b];
    while e != null
      invariant Sorting(t, cs, all, at, b, oldLen) && k <= |cs[b]|
      invariant e == HeadOf(cs[b][k..]) && prev == if k == 0 then null else cs[b][k - 1]
      invariant forall i {:trigger cs[b][i]} :: 0 <= i < k ==> cs[b][i].hash % t.Length == b
      decreases |cs[b]| - k
    {
      assert Bucket(t, cs, all, b) && e == cs[b][k..][0] == cs[b][k];
      if e.hash % t.Length == b {
        prev := e;
        k := k + 1;
      } else {
        cs, at := MoveHome(t, b, oldLen, prev, e, cs, all, at, k);
        assert Bucket(t, cs, all, b);
      }
      e := Behind(t, b, prev, cs[b], k);
    }
    forall f | f in all && at[f] == b ensures f.hash % t.Length == b { assert InChain(cs, b, f); }
  }

  /** All old buckets are walked (libevent/ht-internal.h:352-364). */
  method SortAll(t: array<Elem?>, oldLen: nat, ghost cs0: seq<seq<Elem>>, ghost all: set<Elem>,
                 ghost at0: map<Elem, nat>)
    returns (ghost cs: seq<seq<Elem>>)
    requires oldLen <= t.Length && Sorting(t, cs0, all, at0, 0, oldLen)
    modifies t, all`next
    ensures Rehashed(t, cs, all)
  {
    cs := cs0;
    ghost var at := at0;
    var b := 0;
    while b < oldLen
      invariant b <= oldLen && Sorting(t, cs, all, at, b, oldLen)
    {
      cs, at := SortChain(t, b, oldLen, cs, all, at);
      b := b + 1;
    }
    assert at == Homes(all, t.Length);
  }

  // ---------------------------------------------------------------- the table

  const PRIMES: seq<nat> := [
    53, 97, 193, 389, 769, 1543, 3079, 6151, 12289, 24593, 49157, 98317, 196613, 393241, 786433, 1572869, 3145739,
    6291469, 12582917, 25165843, 50331653, 100663319, 201326611, 402653189, 805306457, 1610612741
  ]

  lemma {:induction false} PrimesGrow(i: nat, j: nat)
    requires i < j < |PRIMES|
    ensures 0 < PRIMES[i] < PRIMES[j]
  {
    assert forall k :: 0 <= k < 25 ==> 0 < PRIMES[k] < PRIMES[k + 1];
    if i + 1 < j { PrimesGrow(i, j - 1); }
  }

  lemma {:induction false} PrimeIsPositive(i: nat)
    requires i < |PRIMES|
    ensures PRIMES[i] > 0
  {
    if i > 0 { PrimesGrow(0, i); }
  }

  /** The load limit rises by more than one from each length to the next. */
  predicate LoadOk(loadLimitOf: nat -> nat) {
    loadLimitOf(PRIMES[0]) > 1 &&
    forall i :: 0 <= i < |PRIMES| - 1 ==> loadLimitOf(PRIMES[i]) + 1 < loadLimitOf(PRIMES[i + 1])
  }

  /** The load factor of one half, which every table of the source has
      (libevent/evmap.c:109-110 and libevent/event.c:192-193). */
  lemma {:induction false} HalfIsOk(loadLimitOf: nat -> nat)
    requires forall n: nat :: loadLimitOf(n) == n / 2
    ensures LoadOk(loadLimitOf)
  {
    forall i | 0 <= i < |PRIMES| - 1 ensures loadLimitOf(PRIMES[i]) + 1 < loadLimitOf(PRIMES[i + 1]) {
      assert forall k :: 0 <= k < 25 ==> PRIMES[k] + 4 <= PRIMES[k + 1];
    }
  }

  // ---------------------------------------------------------------- the order of HT_FOREACH

  /** The elements of the first `n` chains. */
  ghost function FlatTo(cs: seq<seq<Elem>>, n: nat): seq<Elem>
    requires n <= |cs|
  {
    if n == 0 then [] else FlatTo(cs, n - 1) + cs[n - 1]
  }

  lemma {:induction false} FlatAt(cs: seq<seq<Elem>>, n: nat, b: nat, k: nat)
    requires b < n <= |cs| && k < |cs[b]|
    ensures |FlatTo(cs, b)| + k < |FlatTo(cs, n)| && FlatTo(cs, n)[|FlatTo(cs, b)| + k] == cs[b][k]
  {
    if b < n - 1 { FlatAt(cs, n - 1, b, k); }
  }

  /** Empty chains add nothing. */
  lemma {:induction false} FlatSkips(cs: seq<seq<Elem>>, b: nat, n: nat)
    requires b <= n <= |cs| && forall c :: b <= c < n ==> cs[c] == []
    ensures FlatTo(cs, n) == FlatTo(cs, b)
  {
    if b < n { FlatSkips(cs, b, n - 1); }
  }

  lemma {:induction false} NoDupAppend(c: seq<Elem>, d: seq<Elem>)
    requires NoDup(c) && NoDup(d) && forall e :: e in d ==> e !in c
    ensures NoDup(c + d)
  {
    forall i, j | 0 <= i < j < |c + d| ensures (c + d)[i] != (c + d)[j] {
      if i < |c| <= j { assert (c + d)[j] in d; }
    }
  }

  ghost function ElemsOf(s: seq<Elem>): set<Elem> {
    set e | e in s
  }

  ghost function Within(at: map<Elem, nat>, n: nat): set<Elem> {
    set e | e in at && at[e] < n
  }

  lemma {:induction false} FlatHas(cs: seq<seq<Elem>>, n: nat, at: map<Elem, nat>)
    requires n <= |cs| && Placed(cs, at) && forall b :: 0 <= b < n ==> NoDup(cs[b])
    ensures NoDup(FlatTo(cs, n)) && ElemsOf(FlatTo(cs, n)) == Within(at, n)
  {
    if n > 0 {
      var m, last := n - 1, cs[n - 1];
      FlatHas(cs, m, at);
      forall e | e in last ensures e !in FlatTo(cs, m) && e in Within(at, n) {
        assert InChain(cs, m, e);
        assert e !in ElemsOf(FlatTo(cs, m));
      }
      forall e | e in FlatTo(cs, m) ensures e in Within(at, n) { assert e in ElemsOf(FlatTo(cs, m)); }
      forall e | e in Within(at, n) ensures e in FlatTo(cs, m) + last {
        assert InChain(cs, at[e], e);
        assert at[e] < m ==> e in ElemsOf(FlatTo(cs, m));
      }
      NoDupAppend(FlatTo(cs, m), last);
    }
  }

  lemma {:induction false} NoDupSize(s: seq<Elem>, all: set<Elem>)
    requires NoDup(s) && all == ElemsOf(s)
    ensures |s| == |all|
  {
    if s != [] {
      var last, init := s[|s| - 1], s[..|s| - 1];
      assert s == init + [last];
      assert last !in init;
      assert all - {last} == ElemsOf(init);
      NoDupSize(init, all - {last});
    }
  }

  // ---------------------------------------------------------------- the table

  class Table {
    const hashfn: int -> nat
    const loadLimitOf: nat -> nat
    var table: array?<Elem?>
    var tableLength: nat
    var nEntries: nat
    var loadLimit: nat
    var primeIdx: int
    ghost var chains: seq<seq<Elem>>
    ghost var elems: set<Elem>

    constructor (hashfn: int -> nat, loadLimitOf: nat -> nat)
      ensures Valid() && elems == {} && this.hashfn == hashfn && this.loadLimitOf == loadLimitOf
    {
      this.hashfn, this.loadLimitOf := hashfn, loadLimitOf;
      table, tableLength, nEntries, loadLimit, primeIdx := null, 0, 0, 0, -1;
      chains, elems := [], {};
    }

    /** Different elements have different keys, and the hash is a function of the key. */
    ghost predicate Keyed(all: set<Elem>) {
      (forall e :: e in all ==> e.hash == hashfn(e.key)) &&
        forall e, f :: e in all && f in all && e.key == f.key ==> e == f
    }

    ghost predicate Valid()
      reads this, table, elems
    {
      Keyed(elems) && nEntries == |elems| && (primeIdx < |PRIMES| - 1 ==> nEntries <= loadLimit) &&
      if table == null then tableLength == 0 && loadLimit == 0 && primeIdx == -1 && chains == []
      else
        0 <= primeIdx < |PRIMES| && tableLength == PRIMES[primeIdx] == table.Length &&
        loadLimit == loadLimitOf(tableLength) &&
        loadLimit > 0 && Rehashed(table, chains, elems)
    }

    /** What the table maps a key to. */
    ghost predicate Maps(key: int, e: Elem?)
      reads this, elems
    {
      if e == null then forall f :: f in elems ==> f.key != key else e in elems && e.key == key
    }

    /** Some longer length has room for more than `size`. */
    ghost predicate HasLonger(size: nat)
      reads this`primeIdx
    {
      exists i :: 0 <= i < |PRIMES| && primeIdx < i && loadLimitOf(PRIMES[i]) > size
    }

    /** HT_GROW does not look for a length behind the last one. */
    ghost predicate CanGrow(size: nat)
      reads this`primeIdx, this`loadLimit
    {
      primeIdx == |PRIMES| - 1 || loadLimit > size || HasLonger(size)
    }

    /** With a load limit that rises by more than one from each length to the next, a full table
        can always grow. */
    lemma {:induction false} FullCanGrow()
      requires Valid() && LoadOk(loadLimitOf)
      ensures CanGrow(nEntries + 1)
    {
      if primeIdx < |PRIMES| - 1 {
        assert loadLimitOf(PRIMES[primeIdx + 1]) > nEntries + 1;
      }
    }

    /** The first longer length that has room (libevent/ht-internal.h:322-327). */
    method ChooseLength(size: nat) returns (idx: nat, len: nat, limit: nat)
      requires -1 <= primeIdx < |PRIMES| - 1 && HasLonger(size)
      ensures primeIdx < idx < |PRIMES| && len == PRIMES[idx] && limit == loadLimitOf(len) && limit > size
      ensures forall i :: primeIdx < i < idx ==> loadLimitOf(PRIMES[i]) <= size
    {
      idx := primeIdx + 1;
      len := PRIMES[idx];
      limit := loadLimitOf(len);
      while limit <= size && idx < |PRIMES|
        invariant primeIdx < idx < |PRIMES| && len == PRIMES[idx] && limit == loadLimitOf(len)
        invariant forall i :: primeIdx < i < idx ==> loadLimitOf(PRIMES[i]) <= size
        decreases |PRIMES| - idx
      {
        assert idx != |PRIMES| - 1;
        idx := idx + 1;
        len := PRIMES[idx];
        limit := loadLimitOf(len);
      }
    }

    /** The part of growth that fills the longer table: a new one if there is memory for it, and
        otherwise the old one made longer. */
    method Refill(len: nat, enough: bool) returns (t: array<Elem?>, ghost cs: seq<seq<Elem>>)
      requires Valid() && tableLength < len
      modifies elems`next
      ensures fresh(t) && t.Length == len && Rehashed(t, cs, elems)
    {
      t := new Elem?[len](i => null);
      if table == null {
        cs := seq(len, i => []);
        forall b | 0 <= b < |cs| ensures Bucket(t, cs, {}, b) {}
        assert elems == {};
      } else if enough {
        cs := MoveAll(table, t, chains, elems, Homes(elems, tableLength));
      } else {
        forall b | 0 <= b < tableLength {
          t[b] := table[b];
        }
        ghost var longer := chains + seq(len - tableLength, i => []);
        LongerSorting(table, t, chains, longer, elems);
        cs := SortAll(t, tableLength, longer, elems, Homes(elems, tableLength));
      }
    }

    /** The old lists in a longer table. */
    lemma {:induction false} LongerSorting(old_: array<Elem?>, t: array<Elem?>, cs: seq<seq<Elem>>,
                                           longer: seq<seq<Elem>>, all: set<Elem>)
      requires Rehashed(old_, cs, all) && old_.Length < t.Length && longer == cs + seq(t.Length - old_.Length, i => [])
      requires forall b :: 0 <= b < t.Length ==> t[b] == if b < old_.Length then old_[b] else null
      ensures Sorting(t, longer, all, Homes(all, old_.Length), 0, old_.Length)
    {
      var at := Homes(all, old_.Length);
      forall b | 0 <= b < |longer| ensures Bucket(t, longer, all, b) {
        if b < |cs| { assert Bucket(old_, cs, all, b); }
      }
      forall e | e in at ensures InChain(longer, at[e], e) { assert InChain(cs, at[e], e); }
      forall b, e | InChain(longer, b, e) ensures e in at && at[e] == b { assert InChain(cs, b, e); }
    }

    /** HT_GROW (libevent/ht-internal.h:312-371): the same elements, and room for more than `size`
        unless the table has the last length. */
    method Grow(size: nat, enough: bool) returns (result: int)
      requires Valid() && CanGrow(size)
      modifies this`table, this`tableLength, this`loadLimit, this`primeIdx, this`chains, elems`next
      ensures Valid() && (loadLimit > size || primeIdx == |PRIMES| - 1) && result == 0
      ensures table != null && (table == old(table) || fresh(table))
    {
      result := 0;
      if primeIdx == |PRIMES| - 1 {
        return;
      }
      if loadLimit > size {
        return;
      }
      var idx, len, limit := ChooseLength(size);
      PrimeIsPositive(idx);
      if primeIdx >= 0 { PrimesGrow(primeIdx, idx); }
      var t;
      ghost var cs;
      t, cs := Refill(len, enough);
      table, chains := t, cs;
      tableLength, primeIdx, loadLimit := len, idx, limit;
    }

    /** HT_FIND_P (libevent/ht-internal.h:139-152): the place of the element with the key, or the
        end of its chain.  `prev` is null at the start of the chain. */
    method FindP(key: int) returns (b: nat, prev: Elem?, cur: Elem?, ghost k: nat)
      requires Valid() && table != null
      ensures b == hashfn(key) % tableLength && b < |chains| && k <= |chains[b]|
      ensures prev == (if k == 0 then null else chains[b][k - 1]) && cur == HeadOf(chains[b][k..])
      ensures Maps(key, cur)
    {
      b := hashfn(key) % tableLength;
      assert Bucket(table, chains, elems, b);
      prev, cur, k := null, table[b], 0;
      ghost var c := chains[b];
      assert c[0..] == c;
      while cur != null
        invariant k <= |c| && prev == (if k == 0 then null else c[k - 1]) && cur == HeadOf(c[k..])
        invariant forall i :: 0 <= i < k ==> c[i].key != key
        decreases |c| - k
      {
        assert cur == c[k..][0] == c[k];
        if cur.key == key {
          return;
        }
        assert Node(c, k);
        prev, cur, k := cur, cur.next, k + 1;
      }
      NotInChain(key, b);
    }

    /** A key that is not in its chain is nowhere. */
    lemma {:induction false} NotInChain(key: int, b: nat)
      requires Valid() && table != null && b == hashfn(key) % tableLength && b < |chains|
      requires forall i :: 0 <= i < |chains[b]| ==> chains[b][i].key != key
      ensures Maps(key, null)
    {
      forall f | f in elems ensures f.key != key {
        var at := Homes(elems, tableLength);
        assert f in at && InChain(chains, at[f], f);
      }
    }

    /** HT_FIND (libevent/ht-internal.h:155-163). */
    method Find(key: int) returns (e: Elem?)
      requires Valid()
      ensures Maps(key, e)
    {
      if table == null {
        return null;
      }
      var b, prev, cur;
      ghost var k;
      b, prev, cur, k := FindP(key);
      e := cur;
    }

    /** The element goes to the front of its chain. */
    method Add(elm: Elem)
      requires Valid() && table != null && (nEntries < loadLimit || primeIdx == |PRIMES| - 1)
      requires elm !in elems && elm.hash == hashfn(elm.key) && Maps(elm.key, null)
      modifies this`nEntries, this`chains, this`elems, table, elm`next
      ensures Valid() && elems == old(elems) + {elm} && nEntries == old(nEntries) + 1
    {
      nEntries := nEntries + 1;
      chains := MoveOne(table, elm, chains, elems);
      elems := elems + {elm};
    }

    /** HT_INSERT (libevent/ht-internal.h:166-177), of an element whose key is not there. */
    method Insert(elm: Elem, enough: bool)
      requires Valid() && elm !in elems && elm.hash == hashfn(elm.key) && Maps(elm.key, null)
      requires (table != null && nEntries < loadLimit) || CanGrow(nEntries + 1)
      modifies this, table, elm`next, elems`next
      ensures Valid() && elems == old(elems) + {elm} && table != null && (table == old(table) || fresh(table))
      ensures nEntries == old(nEntries) + 1
    {
      if table == null || nEntries >= loadLimit {
        var result := Grow(nEntries + 1, enough);
      }
      Add(elm);
    }

    /** The element at a place is taken out of its chain (libevent/ht-internal.h:210-213). */
    method Unlink(b: nat, prev: Elem?, r: Elem, ghost k: nat)
      requires Valid() && table != null && b < |chains| && k < |chains[b]| && r == chains[b][k]
      requires prev == if k == 0 then null else chains[b][k - 1]
      modifies this`nEntries, this`chains, this`elems, table, elems`next
      ensures Valid() && r in old(elems) && elems == old(elems) - {r} && r.next == null && nEntries < old(nEntries)
    {
      chains := TakeOut(table, b, prev, r, chains, elems, k);
      r.next := null;
      elems := elems - {r};
      nEntries := nEntries - 1;
    }

    /** HT_REMOVE (libevent/ht-internal.h:202-215). */
    method Remove(key: int) returns (r: Elem?)
      requires Valid()
      modifies this`nEntries, this`chains, this`elems, table, elems`next
      ensures Valid() && Maps(key, null) && nEntries <= old(nEntries)
      ensures if r == null then elems == old(elems)
              else r in old(elems) && r.key == key && elems == old(elems) - {r} && r.next == null
    {
      if table == null {
        return null;
      }
      var b, prev, cur;
      ghost var k;
      b, prev, cur, k := FindP(key);
      r := cur;
      if r == null {
        return;
      }
      assert r == chains[b][k..][0] == chains[b][k];
      Unlink(b, prev, r, k);
    }

    /** HT_CLEAR (libevent/ht-internal.h:374-381); the elements themselves stay. */
    method Clear()
      requires Valid()
      modifies this
      ensures Valid() && elems == {} && table == null
    {
      table, tableLength, nEntries, loadLimit, primeIdx := null, 0, 0, 0, -1;
      chains, elems := [], {};
    }

    // -------------------------------------------------------------- iteration

    /** The elements in the order of HT_FOREACH. */
    ghost function Order(): seq<Elem>
      reads this`chains
    {
      FlatTo(chains, |chains|)
    }

    /** Every element comes exactly once. */
    lemma {:induction false} OrderIsAll()
      requires Valid()
      ensures NoDup(Order()) && elems == ElemsOf(Order()) && |Order()| == nEntries
    {
      if table != null {
        var at := Homes(elems, tableLength);
        forall b | 0 <= b < |chains| ensures NoDup(chains[b]) { assert Bucket(table, chains, elems, b); }
        FlatHas(chains, |chains|, at);
        forall e | e in elems ensures e in Within(at, |chains|) { assert e in at && InChain(chains, at[e], e); }
        assert elems == Within(at, |chains|);
      } else {
        assert Order() == [] && |elems| == 0;
      }
      NoDupSize(Order(), elems);
    }

    /** The first element in the buckets from `from` on. */
    method FirstFrom(from: nat) returns (e: Elem?)
      requires Valid() && from <= tableLength
      ensures var i := |FlatTo(chains, from)|;
        i <= |Order()| && e == if i < |Order()| then Order()[i] else null
    {
      var b := from;
      while b < tableLength
        invariant from <= b <= tableLength && forall c :: from <= c < b ==> chains[c] == []
      {
        assert Bucket(table, chains, elems, b);
        if table[b] != null {
          FlatSkips(chains, from, b);
          FlatAt(chains, |chains|, b, 0);
          return table[b];
        }
        b := b + 1;
      }
      FlatSkips(chains, from, |chains|);
      e := null;
    }

    /** HT_START (libevent/ht-internal.h:246-256). */
    method Start() returns (e: Elem?)
      requires Valid()
      ensures e == if Order() == [] then null else Order()[0]
    {
      e := FirstFrom(0);
    }

    /** HT_NEXT (libevent/ht-internal.h:262-276). */
    method Next(e: Elem, ghost i: nat) returns (f: Elem?)
      requires Valid() && i < |Order()| && e == Order()[i]
      ensures f == if i + 1 < |Order()| then Order()[i + 1] else null
    {
      OrderIsAll();
      ghost var b := e.hash % tableLength;
      assert e in Homes(elems, tableLength) && InChain(chains, b, e) && Bucket(table, chains, elems, b);
      ghost var k :| 0 <= k < |chains[b]| && chains[b][k] == e;
      FlatAt(chains, |chains|, b, k);
      assert i == |FlatTo(chains, b)| + k;
      assert Node(chains[b], k);
      if e.next != null {
        FlatAt(chains, |chains|, b, k + 1);
        return e.next;
      }
      assert |FlatTo(chains, b + 1)| == i + 1;
      f := FirstFrom(e.hash % tableLength + 1);
    }

    /** HT_FOREACH (libevent/ht-internal.h:120-123). */
    method ForEach() returns (visited: seq<Elem>)
      requires Valid()
      ensures visited == Order()
    {
      visited := [];
      var x := Start();
      while x != null
        invariant |visited| <= |Order()| && visited == Order()[..|visited|]
        invariant x == if |visited| < |Order()| then Order()[|visited|] else null
        decreases |Order()| - |visited|
      {
        ghost var i := |visited|;
        visited := visited + [x];
        x := Next(x, i);
      }
      assert Order()[..|Order()|] == Order();
    }

    // -------------------------------------------------------------- the check

    /** The chains are linked; nothing is said about what they hold, or about the counts. */
    ghost predicate Linked()
      reads this, table, elems
    {
      -1 <= primeIdx < |PRIMES| &&
      if table == null then tableLength == 0 && chains == []
      else table.Length == tableLength && Lists(table, chains, elems)
    }

    /** Every element is in the bucket of its hash. */
    ghost predicate AllHome(n: nat)
      reads this`chains, this`tableLength
    {
      tableLength > 0 && n <= |chains| &&
      forall b, k :: 0 <= b < n && 0 <= k < |chains[b]| ==> chains[b][k].hash % tableLength == b
    }

    ghost predicate Consistent()
      reads this
    {
      if tableLength == 0 then table == null && nEntries == 0 && loadLimit == 0 && primeIdx == -1
      else
        table != null && 0 <= primeIdx < |PRIMES| && loadLimit != 0 && nEntries <= loadLimit &&
        tableLength == PRIMES[primeIdx] &&
        loadLimit == loadLimitOf(tableLength) && AllHome(|chains|) && |Order()| == nEntries
    }

    /** A table is consistent unless it has the last length and more elements than its limit. */
    lemma {:induction false} ValidIsConsistent()
      requires Valid()
      ensures Linked() && (Consistent() <==> nEntries <= loadLimit)
    {
      OrderIsAll();
      if table != null {
        PrimeIsPositive(primeIdx);
        forall b, k | 0 <= b < |chains| && 0 <= k < |chains[b]| ensures chains[b][k].hash % tableLength == b {
          assert InChain(chains, b, chains[b][k]);
        }
      }
    }

    /** One bucket is checked and counted. */
    method CheckBucket(i: nat) returns (bad: bool, count: nat)
      requires Linked() && table != null && i < tableLength && AllHome(i)
      ensures !bad <==> AllHome(i + 1)
      ensures !bad ==> count == |chains[i]|
    {
      assert Bucket(table, chains, elems, i);
      bad, count := false, 0;
      var elm := table[i];
      ghost var c := chains[i];
      while elm != null
        invariant count <= |c| && elm == (if count < |c| then c[count] else null)
        invariant forall k :: 0 <= k < count ==> c[k].hash % tableLength == i
        decreases |c| - count
      {
        if elm.hash % tableLength != i {
          return true, count;
        }
        assert Node(c, count);
        elm := elm.next;
        count := count + 1;
      }
    }

    /** HT_REP_IS_BAD (libevent/ht-internal.h:384-417) returns 0 exactly when the representation is
        consistent. */
    method RepIsBad() returns (r: int)
      requires Linked()
      ensures r == 0 <==> Consistent()
    {
      if tableLength == 0 {
        return if table == null && nEntries == 0 && loadLimit == 0 && primeIdx == -1 then 0 else 1;
      }
      if table == null || primeIdx < 0 || loadLimit == 0 {
        return 2;
      }
      if nEntries > loadLimit {
        return 3;
      }
      if tableLength != PRIMES[primeIdx] {
        return 4;
      }
      if loadLimit != loadLimitOf(tableLength) {
        return 5;
      }
      var n, i := 0, 0;
      while i < tableLength
        invariant i <= tableLength && AllHome(i) && n == |FlatTo(chains, i)|
      {
        var bad, count := CheckBucket(i);
        if bad {
          return 10000 + i;
        }
        n := n + count;
        i := i + 1;
      }
      r := if n != nEntries then 6 else 0;
    }
  }

  /** An element leaves its chain. */
  lemma {:induction false} PlacedLess(cs: seq<seq<Elem>>, at: map<Elem, nat>, b: nat, k: nat)
    requires Placed(cs, at) && b < |cs| && k < |cs[b]| && NoDup(cs[b])
    ensures Placed(cs[b := Dropped(cs[b], k)], at - {cs[b][k]})
  {
    var e := cs[b][k];
    var ds, at' := cs[b := Dropped(cs[b], k)], at - {e};
    DroppedHas(cs[b], k);
    assert InChain(cs, b, e);
    forall f | f in at' ensures InChain(ds, at'[f], f) { assert InChain(cs, at[f], f); }
    forall d, f | InChain(ds, d, f) ensures f in at' && at'[f] == d { assert InChain(cs, d, f); }
  }

  method TakeOut(t: array<Elem?>, b: nat, prev: Elem?, e: Elem, ghost cs: seq<seq<Elem>>, ghost all: set<Elem>,
                 ghost k: nat)
    returns (ghost ds: seq<seq<Elem>>)
    requires Rehashed(t, cs, all) && b < |cs| && k < |cs[b]| && e == cs[b][k] &&
             prev == if k == 0 then null else cs[b][k - 1]
    modifies t, all`next
    ensures Rehashed(t, ds, all - {e}) && e in all
  {
    ghost var at := Homes(all, t.Length);
    ds := cs[b := Dropped(cs[b], k)];
    assert Bucket(t, cs, all, b);
    PlacedLess(cs, at, b, k);
    OnlyHere(cs, at, b, e);
    DroppedHas(cs[b], k);
    if prev == null {
      UnlinkFirst(t, b, e, cs[b]);
    } else {
      OnlyHere(cs, at, b, prev);
      UnlinkAfter(t[b], prev, e, cs[b], k);
    }
    forall d | 0 <= d < |ds| ensures Bucket(t, ds, all - {e}, d) {
      assert old(Bucket(t, cs, all, d));
      if d != b { assert t[d] == old(t[d]); }
    }
    assert Homes(all - {e}, t.Length) == at - {e};
  }

  // ---------------------------------------------------------------- runs

  datatype Call = InsertCall(elm: Elem, enough: bool) | RemoveCall(key: int) | ClearCall

  /** What a call makes of a set of elements. */
  ghost function After(all: set<Elem>, call: Call): set<Elem> {
    match call
    case InsertCall(elm, _) => if exists e :: e in all && e.key == elm.key then all else all + {elm}
    case RemoveCall(key) => set e | e in all && e.key != key
    case ClearCall => {}
  }

  ghost function AfterAll(all: set<Elem>, calls: seq<Call>): set<Elem> {
    if calls == [] then all else After(AfterAll(all, calls[..|calls| - 1]), calls[|calls| - 1])
  }

  lemma {:induction false} OneWithKey(all: set<Elem>, e: Elem)
    requires e in all && forall f :: f in all && f.key == e.key ==> f == e
    ensures all - {e} == set f | f in all && f.key != e.key
  {
  }

  lemma {:induction false} NoneWithKey(all: set<Elem>, key: int)
    requires forall f :: f in all ==> f.key != key
    ensures all == set f | f in all && f.key != key
  {
  }

  /** An element is only inserted when its key is not there. */
  method PerformInsert(t: Table, elm: Elem, enough: bool)
    requires t.Valid() && LoadOk(t.loadLimitOf) && elm.hash == t.hashfn(elm.key)
    modifies t, t.table, t.elems`next, elm`next
    ensures t.Valid() && t.elems == After(old(t.elems), InsertCall(elm, enough))
    ensures t.table == null || t.table == old(t.table) || fresh(t.table)
  {
    var there := t.Find(elm.key);
    if there == null {
      t.FullCanGrow();
      t.Insert(elm, enough);
    }
  }

  method PerformRemove(t: Table, key: int)
    requires t.Valid()
    modifies t, t.table, t.elems`next
    ensures t.Valid() && t.elems == After(old(t.elems), RemoveCall(key)) && t.table == old(t.table)
  {
    ghost var all := t.elems;
    var r := t.Remove(key);
    if r == null { NoneWithKey(all, key); } else { OneWithKey(all, r); }
  }

  /** One call. */
  method Perform(t: Table, call: Call)
    requires t.Valid() && LoadOk(t.loadLimitOf)
    requires call.InsertCall? ==> call.elm.hash == t.hashfn(call.elm.key)
    modifies t, t.table, t.elems`next, if call.InsertCall? then {call.elm} else {}
    ensures t.Valid() && t.elems == After(old(t.elems), call)
    ensures t.table == null || t.table == old(t.table) || fresh(t.table)
  {
    match call {
      case InsertCall(elm, enough) => PerformInsert(t, elm, enough);
      case RemoveCall(key) => PerformRemove(t, key);
      case ClearCall => t.Clear();
    }
  }

  /** Whatever memory there is for growth, and however many elements there are, a run of calls keeps
      the table a map from keys to elements, in which each element is visited once; and the check
      finds something wrong exactly when a table of the last length has more elements than its
      limit.  An element is only inserted when its key is not there. */
  method Run(t: Table, calls: seq<Call>) returns (visited: seq<Elem>, bad: int)
    requires t.Valid() && LoadOk(t.loadLimitOf)
    requires forall i :: 0 <= i < |calls| && calls[i].InsertCall? ==> calls[i].elm.hash == t.hashfn(calls[i].elm.key)
    modifies t, t.table, t.elems`next, set c | c in calls && c.InsertCall? :: c.elm
    ensures t.Valid() && t.elems == AfterAll(old(t.elems), calls)
    ensures NoDup(visited) && t.elems == ElemsOf(visited)
    ensures bad == 0 <==> |t.elems| <= t.loadLimit
    ensures bad != 0 ==> t.primeIdx == |PRIMES| - 1
  {
    var i := 0;
    while i < |calls|
      invariant i <= |calls| && t.Valid()
      invariant t.table == null || t.table == old(t.table) || fresh(t.table)
      invariant t.elems == AfterAll(old(t.elems), calls[..i])
      invariant forall e :: e in t.elems ==>
                  e in old(t.elems) || (exists c :: c in calls && c.InsertCall? && c.elm == e)
    {
      assert calls[..i + 1][..i] == calls[..i] && calls[i] in calls;
      Perform(t, calls[i]);
      i := i + 1;
    }
    assert calls[..i] == calls;
    t.ValidIsConsistent();
    t.OrderIsAll();
    visited := t.ForEach();
    bad := t.RepIsBad();
  }
}
