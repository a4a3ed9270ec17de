/** new_command_generator of client/mysql.cc: the resumable walk over the completion index. */
module CompletionGenerator {
  import opened Basics
  import opened CompletionIndex

  // ---------------------------------------------------------------- the walk, on values

  /** An entry as the walk meets it: its string, and the length of the key it is stored under. */
  datatype Visit = Visit(str: string, keyLength: nat)

  function Tag(ss: seq<string>, n: nat): seq<Visit> {
    if ss == [] then [] else [Visit(ss[0], n)] + Tag(ss[1..], n)
  }

  ghost predicate KnownBucket(b: Bucket, m: map<string, seq<string>>) {
    b.Keyed() && b.key in m && m[b.key] != []
  }

  /** The keys of the buckets are stored. */
  ghost predicate AllKnown(bs: seq<Bucket>, m: map<string, seq<string>>) {
    forall j :: 0 <= j < |bs| ==> KnownBucket(bs[j], m)
  }

  /** The entries of the given buckets, in order. */
  ghost function VisitBuckets(bs: seq<Bucket>, m: map<string, seq<string>>): seq<Visit>
    requires AllKnown(bs, m)
  {
    if bs == [] then [] else Tag(m[bs[0].key], bs[0].nKeyLength) + VisitBuckets(bs[1..], m)
  }

  lemma {:induction false} VisitAppend(a: seq<Bucket>, b: seq<Bucket>, m: map<string, seq<string>>)
    requires AllKnown(a, m) && AllKnown(b, m)
    ensures AllKnown(a + b, m) && VisitBuckets(a + b, m) == VisitBuckets(a, m) + VisitBuckets(b, m)
  {
    KnownAppend(a, b, m);
    if a == [] {
      assert a + b == b;
    } else {
      var rest := a[1..];
      KnownRest(a, m);
      VisitAppend(rest, b, m);
      assert (a + b)[0] == a[0] && (a + b)[1..] == rest + b;
      Regroup(Tag(m[a[0].key], a[0].nKeyLength), VisitBuckets(rest, m), VisitBuckets(b, m));
    }
  }

  lemma {:induction false} KnownRest(bs: seq<Bucket>, m: map<string, seq<string>>)
    requires AllKnown(bs, m) && bs != []
    ensures KnownBucket(bs[0], m) && AllKnown(bs[1..], m)
  {
    var rest := bs[1..];
    assert forall j :: 0 <= j < |rest| ==> rest[j] == bs[j + 1];
  }

  /** The buckets of the table from chain `i` on, in the order of the walk. */
  ghost function Flat(heads: seq<Bucket?>, i: nat): seq<Bucket>
    decreases |heads| - i
  {
    if i >= |heads| then [] else Chain(heads[i]) + Flat(heads, i + 1)
  }

  /** In an empty table no chain holds a bucket. */
  lemma {:induction false} FlatOfEmpty(heads: seq<Bucket?>, i: nat, j: nat)
    requires Flat(heads, i) == [] && i <= j
    ensures Flat(heads, j) == []
    decreases j - i
  {
    if i < j && i < |heads| {
      FlatOfEmpty(heads, i + 1, j);
    }
  }

  ghost predicate Known(heads: seq<Bucket?>, m: map<string, seq<string>>) {
    forall i :: 0 <= i < |heads| ==> AllKnown(Chain(heads[i]), m)
  }

  lemma {:induction false} FlatIsKnown(heads: seq<Bucket?>, i: nat, m: map<string, seq<string>>)
    requires Known(heads, m)
    ensures AllKnown(Flat(heads, i), m)
    decreases |heads| - i
  {
    if i < |heads| {
      FlatIsKnown(heads, i + 1, m);
      var chain, rest := Chain(heads[i]), Flat(heads, i + 1);
      KnownAppend(chain, rest, m);
      assert Flat(heads, i) == chain + rest;
    }
  }

  lemma {:induction false} KnownAppend(a: seq<Bucket>, b: seq<Bucket>, m: map<string, seq<string>>)
    requires AllKnown(a, m) && AllKnown(b, m)
    ensures AllKnown(a + b, m)
  {
  }

  /** The strings the walk returns: those met under their whole length. */
  function Whole(vs: seq<Visit>): seq<string> {
    if vs == [] then []
    else (if |vs[0].str| == vs[0].keyLength then [vs[0].str] else []) + Whole(vs[1..])
  }

  lemma {:induction false} WholeAppend(a: seq<Visit>, b: seq<Visit>)
    ensures Whole(a + b) == Whole(a) + Whole(b)
  {
    if a == [] {
      assert a + b == b;
    } else {
      assert (a + b)[0] == a[0] && (a + b)[1..] == a[1..] + b;
      WholeAppend(a[1..], b);
    }
  }

  // ---------------------------------------------------------------- each word once

  lemma {:induction false} WholeOfTag(x: string, ss: seq<string>, n: nat)
    ensures Whole(Tag([x] + ss, n)) == (if |x| == n then [x] else []) + Whole(Tag(ss, n))
  {
    assert ([x] + ss)[0] == x && ([x] + ss)[1..] == ss;
    var vs := Tag([x] + ss, n);
    assert vs[0] == Visit(x, n) && vs[1..] == Tag(ss, n);
  }

  /** The bucket of `k` returns `k` once for each time it was added. */
  lemma {:induction false} WholeOfKey(words: seq<string>, k: string, w: string)
    ensures multiset(Whole(Tag(Matches(words, k), |k|)))[w] == if w == k then multiset(words)[k] else 0
    decreases |words|
  {
    if words != [] {
      var x, rest := words[|words| - 1], words[..|words| - 1];
      WholeOfKey(rest, k, w);
      assert words == rest + [x];
      if k <= x {
        WholeOfTag(x, Matches(rest, k), |k|);
        assert |x| == |k| ==> x == k;
      } else {
        assert Matches(words, k) == Matches(rest, k) && x != k;
      }
    }
  }

  ghost predicate DistinctKeys(bs: seq<Bucket>) {
    forall j, k :: 0 <= j < k < |bs| ==> bs[j].key != bs[k].key
  }

  ghost predicate HoldsKey(bs: seq<Bucket>, w: string) {
    exists j :: 0 <= j < |bs| && bs[j].key == w
  }

  /** How often a bucket list returns `w`. */
  ghost function Returns(bs: seq<Bucket>, m: map<string, seq<string>>, w: string): nat
    requires AllKnown(bs, m)
  {
    multiset(Whole(VisitBuckets(bs, m)))[w]
  }

  lemma {:induction false} ReturnsAppend(a: seq<Bucket>, b: seq<Bucket>, m: map<string, seq<string>>, w: string)
    requires AllKnown(a, m) && AllKnown(b, m)
    ensures AllKnown(a + b, m) && Returns(a + b, m, w) == Returns(a, m, w) + Returns(b, m, w)
  {
    VisitAppend(a, b, m);
    WholeAppend(VisitBuckets(a, m), VisitBuckets(b, m));
  }

  lemma {:induction false} ReturnsOfOne(b: Bucket, m: map<string, seq<string>>, words: seq<string>, w: string)
    requires Indexed(m, words) && KnownBucket(b, m)
    ensures Returns([b], m, w) == if w == b.key then multiset(words)[w] else 0
  {
    WholeOfKey(words, b.key, w);
    var t := Tag(m[b.key], b.nKeyLength);
    assert VisitBuckets([b], m) == t + VisitBuckets([], m) == t;
    assert |b.key| == b.nKeyLength;
  }

  lemma {:induction false} HoldsKeyRest(bs: seq<Bucket>, w: string)
    requires bs != [] && DistinctKeys(bs)
    ensures DistinctKeys(bs[1..])
    ensures HoldsKey(bs, w) <==> bs[0].key == w || HoldsKey(bs[1..], w)
    ensures bs[0].key == w ==> !HoldsKey(bs[1..], w)
  {
    var rest := bs[1..];
    assert forall j :: 0 <= j < |rest| ==> rest[j] == bs[j + 1];
    if HoldsKey(bs, w) && bs[0].key != w {
      var j :| 0 <= j < |bs| && bs[j].key == w;
      assert rest[j - 1].key == w;
    }
  }

  lemma {:induction false} ReturnsOfBuckets(bs: seq<Bucket>, m: map<string, seq<string>>, words: seq<string>, w: string)
    requires DistinctKeys(bs) && Indexed(m, words) && AllKnown(bs, m)
    ensures Returns(bs, m, w) == if HoldsKey(bs, w) then multiset(words)[w] else 0
    decreases |bs|
  {
    if bs != [] {
      var b, rest := bs[0], bs[1..];
      assert bs == [b] + rest;
      KnownRest(bs, m);
      HoldsKeyRest(bs, w);
      ReturnsOfBuckets(rest, m, words, w);
      ReturnsOfOne(b, m, words, w);
      ReturnsAppend([b], rest, m, w);
    } else {
      assert Whole(VisitBuckets(bs, m)) == [];
    }
  }

  lemma {:induction false} ChainSuffix(head: Bucket?, j: nat)
    requires forall b :: b in Chain(head) ==> b.after == Chain(b.pNext)
    requires j < |Chain(head)|
    ensures Chain(head)[j..] == Chain(Chain(head)[j])
    decreases j
  {
    var chain := Chain(head);
    if j > 0 {
      ChainSuffix(head, j - 1);
      var p := chain[j - 1];
      assert p in chain;
      assert chain[j..] == chain[j - 1..][1..] == p.after == Chain(p.pNext);
      assert chain[j] == chain[j..][0];
    }
  }

  /** No bucket is twice in a chain, so its keys are distinct. */
  lemma {:induction false} ChainKeys(buckets: set<Bucket>, heads: seq<Bucket?>, slot: string -> nat, i: nat)
    requires Linked(buckets, heads, slot) && i < |heads|
    ensures DistinctKeys(Chain(heads[i]))
  {
    var chain := Chain(heads[i]);
    forall j | 0 <= j < |chain| ensures chain[j] in chain && chain[j] in buckets && Placed(chain[j], heads, slot) {
      assert InChain(chain[j], heads[i]);
    }
    forall j, k | 0 <= j < k < |chain| ensures chain[j].key != chain[k].key {
      ChainSuffix(heads[i], j);
      ChainSuffix(heads[i], k);
      assert |chain[j..]| != |chain[k..]|;
    }
  }

  lemma {:induction false} ReturnsOfChain(
    buckets: set<Bucket>, heads: seq<Bucket?>, slot: string -> nat, m: map<string, seq<string>>, words: seq<string>,
    i: nat, w: string)
    requires Linked(buckets, heads, slot) && Known(heads, m) && Indexed(m, words) && i < |heads|
    requires forall k :: k in m ==> HasBucket(buckets, k)
    ensures Returns(Chain(heads[i]), m, w) == if w in m && slot(w) == i then multiset(words)[w] else 0
  {
    ChainKeys(buckets, heads, slot, i);
    ReturnsOfBuckets(Chain(heads[i]), m, words, w);
    KeyIsInSlot(buckets, heads, slot, m, i, w);
  }

  /** One chain and the rest. */
  lemma {:induction false} ReturnsOfRest(heads: seq<Bucket?>, m: map<string, seq<string>>, i: nat, w: string)
    requires i < |heads| && AllKnown(Chain(heads[i]), m) && AllKnown(Flat(heads, i + 1), m)
    ensures AllKnown(Flat(heads, i), m)
    ensures Returns(Flat(heads, i), m, w) == Returns(Chain(heads[i]), m, w) + Returns(Flat(heads, i + 1), m, w)
  {
    var chain, rest := Chain(heads[i]), Flat(heads, i + 1);
    assert Flat(heads, i) == chain + rest;
    ReturnsAppend(chain, rest, m, w);
  }

  /** A chain holds a key exactly when the key is stored and selects that chain. */
  lemma {:induction false} KeyIsInSlot(
    buckets: set<Bucket>, heads: seq<Bucket?>, slot: string -> nat, m: map<string, seq<string>>, i: nat, w: string)
    requires Linked(buckets, heads, slot) && Known(heads, m)
    requires forall k :: k in m ==> HasBucket(buckets, k)
    ensures w in m ==> slot(w) < |heads|
    ensures i < |heads| ==> (HoldsKey(Chain(heads[i]), w) <==> w in m && slot(w) == i)
  {
    if w in m {
      var b :| b in buckets && b.key == w;
      assert Placed(b, heads, slot);
      assert b in Chain(heads[slot(w)]);
    }
    if i < |heads| {
      var chain := Chain(heads[i]);
      forall j | 0 <= j < |chain| ensures slot(chain[j].key) == i && chain[j].key in m {
        assert InChain(chain[j], heads[i]);
        assert KnownBucket(chain[j], m);
      }
    }
  }

  /** How often the chains from `i` on return `w`. */
  ghost function ChainsReturn(heads: seq<Bucket?>, m: map<string, seq<string>>, i: nat, w: string): nat
    requires Known(heads, m)
    decreases |heads| - i
  {
    if i >= |heads| then 0 else Returns(Chain(heads[i]), m, w) + ChainsReturn(heads, m, i + 1, w)
  }

  /** The table from chain `i` on returns what its chains return. */
  lemma {:induction false} ReturnsOfTable(heads: seq<Bucket?>, m: map<string, seq<string>>, i: nat, w: string)
    requires Known(heads, m)
    ensures AllKnown(Flat(heads, i), m) && Returns(Flat(heads, i), m, w) == ChainsReturn(heads, m, i, w)
    decreases |heads| - i
  {
    if i < |heads| {
      ReturnsOfTable(heads, m, i + 1, w);
      ReturnsOfRest(heads, m, i, w);
    } else {
      assert Whole(VisitBuckets([], m)) == [];
    }
  }

  /** How often each chain returns `w`. */
  ghost predicate CountsAre(c: seq<nat>, heads: seq<Bucket?>, m: map<string, seq<string>>, w: string)
    requires Known(heads, m)
  {
    |c| == |heads| && forall j {:trigger c[j]} :: 0 <= j < |heads| ==> c[j] == Returns(Chain(heads[j]), m, w)
  }

  function SumFrom(c: seq<nat>, i: nat): nat
    decreases |c| - i
  {
    if i >= |c| then 0 else c[i] + SumFrom(c, i + 1)
  }

  lemma {:induction false} ChainsReturnSum(
    c: seq<nat>, heads: seq<Bucket?>, m: map<string, seq<string>>, i: nat, w: string)
    requires Known(heads, m) && CountsAre(c, heads, m, w)
    ensures ChainsReturn(heads, m, i, w) == SumFrom(c, i)
    decreases |heads| - i
  {
    if i < |heads| {
      ChainsReturnSum(c, heads, m, i + 1, w);
    }
  }

  lemma {:induction false} SumOfOne(c: seq<nat>, k: nat, n: nat, i: nat)
    requires (forall j :: 0 <= j < |c| ==> c[j] == if j == k then n else 0) && (n > 0 ==> k < |c|)
    ensures SumFrom(c, i) == if i <= k then n else 0
    decreases |c| - i
  {
    if i < |c| {
      SumOfOne(c, k, n, i + 1);
    }
  }

  function NonEmpty(words: seq<string>): seq<string> {
    if words == [] then []
    else NonEmpty(words[..|words| - 1]) + (if words[|words| - 1] == "" then [] else [words[|words| - 1]])
  }

  lemma {:induction false} NonEmptyCount(words: seq<string>, w: string)
    ensures multiset(NonEmpty(words))[w] == if w == "" then 0 else multiset(words)[w]
    decreases |words|
  {
    if words != [] {
      NonEmptyCount(words[..|words| - 1], w);
      assert words == words[..|words| - 1] + [words[|words| - 1]];
    }
  }

  /** Although each word is stored under all its prefixes, the whole walk returns it once per addition. */
  lemma {:induction false} EachWordOnce(
    buckets: set<Bucket>, heads: seq<Bucket?>, slot: string -> nat, m: map<string, seq<string>>, words: seq<string>)
    requires Linked(buckets, heads, slot) && Known(heads, m) && Indexed(m, words)
    requires forall k :: k in m ==> HasBucket(buckets, k)
    ensures AllKnown(Flat(heads, 0), m)
    ensures multiset(Whole(VisitBuckets(Flat(heads, 0), m))) == multiset(NonEmpty(words))
  {
    FlatIsKnown(heads, 0, m);
    var vs, ws := Whole(VisitBuckets(Flat(heads, 0), m)), NonEmpty(words);
    forall w ensures multiset(vs)[w] == multiset(ws)[w] {
      CountOfWord(buckets, heads, slot, m, words, w);
      NonEmptyCount(words, w);
    }
    SameCounts(vs, ws);
  }

  lemma {:induction false} SameCounts(a: seq<string>, b: seq<string>)
    requires forall w :: multiset(a)[w] == multiset(b)[w]
    ensures multiset(a) == multiset(b)
  {
  }

  lemma {:induction false} CountOfWord(
    buckets: set<Bucket>, heads: seq<Bucket?>, slot: string -> nat, m: map<string, seq<string>>, words: seq<string>,
    w: string)
    requires Linked(buckets, heads, slot) && Known(heads, m) && Indexed(m, words)
    requires forall k :: k in m ==> HasBucket(buckets, k)
    ensures AllKnown(Flat(heads, 0), m)
    ensures Returns(Flat(heads, 0), m, w) == if w == "" then 0 else multiset(words)[w]
  {
    var n := if w in m then multiset(words)[w] else 0;
    var c: seq<nat> := seq(|heads|, j requires 0 <= j < |heads| => Returns(Chain(heads[j]), m, w));
    forall j | 0 <= j < |heads| ensures c[j] == if j == slot(w) then n else 0 {
      ReturnsOfChain(buckets, heads, slot, m, words, j, w);
    }
    KeyIsInSlot(buckets, heads, slot, m, slot(w), w);
    SumOfOne(c, slot(w), n, 0);
    ChainsReturnSum(c, heads, m, 0, w);
    ReturnsOfTable(heads, m, 0, w);
    MatchesAre(words, w, w);
  }

  // ---------------------------------------------------------------- the code

  /** The buckets hold what the index says. */
  ghost predicate Stocked(bset: set<Bucket>, m: map<string, seq<string>>)
    reads bset
  {
    forall b :: b in bset ==>
      KnownBucket(b, m) && Strings(b.pData) == m[b.key] && b.after == Chain(b.pNext)
  }

  ghost predicate Within(bs: seq<Bucket>, bset: set<Bucket>) {
    forall j :: 0 <= j < |bs| ==> bs[j] in bset
  }

  /** Leaving an entry. */
  lemma {:induction false} Leave(e: Entry, n: nat, rest: seq<Visit>)
    requires e != Null
    ensures Tag(Strings(e), n) + rest == [Visit(e.str, n)] + (Tag(Strings(e.next), n) + rest)
    ensures e.next == Null ==> Tag(Strings(e.next), n) + rest == rest
  {
    assert Strings(e)[1..] == Strings(e.next);
    assert Tag(Strings(e), n) == [Visit(e.str, n)] + Tag(Strings(e.next), n);
  }

  lemma {:induction false} PopHead(heads: seq<Bucket?>, i: nat)
    requires i < |heads| && heads[i] != null
    ensures var f := Flat(heads, i);
      f != [] && f[0] == heads[i] && f[1..] == heads[i].after + Flat(heads, i + 1)
  {
    var h, rest := heads[i], Flat(heads, i + 1);
    assert Chain(h) + rest == [h] + (h.after + rest);
  }

  /** Behind a bucket comes the next of its chain, or the next chain. */
  lemma {:induction false} PopChain(b: Bucket, rest: seq<Bucket>)
    requires b.after == Chain(b.pNext)
    ensures var todo := b.after + rest;
      if b.pNext == null then todo == rest
      else todo != [] && todo[0] == b.pNext && todo[1..] == b.pNext.after + rest
  {
    if b.pNext != null {
      assert b.after + rest == [b.pNext] + (b.pNext.after + rest);
    } else {
      assert b.after + rest == rest;
    }
  }

  /** What the walk needs to know of the table. */
  datatype View = View(heads: seq<Bucket?>, bset: set<Bucket>, m: map<string, seq<string>>)

  ghost predicate Table(ht: HashTable, v: View)
    reads ht, ht.arBuckets, v.bset
  {
    v.heads == ht.arBuckets[..] && ht.nTableSize == |v.heads| && Stocked(v.bset, v.m)
  }

  ghost predicate Complete(v: View) {
    Within(Flat(v.heads, 0), v.bset) && AllKnown(Flat(v.heads, 0), v.m)
  }

  /** A place in the walk: bucket `b` of chain `i`, with `todo` the buckets to come. */
  ghost predicate Standing(b: Bucket?, i: nat, todo: seq<Bucket>, v: View) {
    && b != null && todo == b.after + Flat(v.heads, i + 1)
    && b.after == Chain(b.pNext) && Within(todo, v.bset) && AllKnown(todo, v.m)
  }

  /** What the walk has still to meet. */
  ghost function ToMeet(b: Bucket?, e: Entry, todo: seq<Bucket>, m: map<string, seq<string>>): seq<Visit>
    requires e != Null ==> b != null && AllKnown(todo, m)
  {
    if e == Null then [] else Tag(Strings(e), b.nKeyLength) + VisitBuckets(todo, m)
  }

  /** From the start of chain `i` to the first entry from there on, if there is one. */
  method EnterChain(ht: HashTable, i: nat, ghost bs: seq<Bucket>, ghost v: View)
    returns (b: Bucket?, e: Entry, i': nat, ghost todo: seq<Bucket>)
    requires Table(ht, v) && bs == Flat(v.heads, i) && Within(bs, v.bset) && AllKnown(bs, v.m)
    ensures e != Null ==> Standing(b, i', todo, v)
    ensures ToMeet(b, e, todo, v.m) == VisitBuckets(bs, v.m)
    ensures e == Null <==> bs == []
  {
    i' := i;
    while i' < ht.nTableSize && ht.arBuckets[i'] == null
      invariant bs == Flat(v.heads, i')
    {
      assert Chain(v.heads[i']) == [] && [] + Flat(v.heads, i' + 1) == Flat(v.heads, i' + 1);
      i' := i' + 1;
    }
    b, e, todo := null, Null, [];
    if i' < ht.nTableSize {
      PopHead(v.heads, i');
      b := ht.arBuckets[i'];
      e := b.pData;
      todo := bs[1..];
      EnterBucket(b, e, i', bs, v);
    }
  }

  /** At the first entry of the first bucket to come. */
  lemma {:induction false} EnterBucket(c: Bucket, e: Entry, i: nat, bs: seq<Bucket>, v: View)
    requires bs != [] && bs[0] == c && c in v.bset && Within(bs, v.bset) && AllKnown(bs, v.m)
    requires KnownBucket(c, v.m) && Strings(e) == v.m[c.key] && c.after == Chain(c.pNext)
    requires bs[1..] == c.after + Flat(v.heads, i + 1)
    ensures e != Null && Standing(c, i, bs[1..], v) && ToMeet(c, e, bs[1..], v.m) == VisitBuckets(bs, v.m)
  {
    var todo := bs[1..];
    assert forall j :: 0 <= j < |todo| ==> todo[j] == bs[j + 1];
  }

  lemma {:induction false} NextInChain(b: Bucket, i: nat, todo: seq<Bucket>, v: View)
    requires Standing(b, i, todo, v)
    ensures b.pNext == null ==> todo == Flat(v.heads, i + 1)
    ensures b.pNext != null ==>
      todo != [] && todo[0] == b.pNext && b.pNext in v.bset && todo[1..] == b.pNext.after + Flat(v.heads, i + 1)
  {
    PopChain(b, Flat(v.heads, i + 1));
  }

  /** The next bucket of the chain. */
  lemma {:induction false} PassBucket(b: Bucket, e: Entry, i: nat, todo: seq<Bucket>, v: View)
    requires Standing(b, i, todo, v) && b.pNext != null && KnownBucket(b.pNext, v.m)
    requires Strings(e) == v.m[b.pNext.key] && b.pNext.after == Chain(b.pNext.pNext)
    ensures todo != [] && Standing(b.pNext, i, todo[1..], v)
    ensures e != Null && ToMeet(b.pNext, e, todo[1..], v.m) == VisitBuckets(todo, v.m)
  {
    NextInChain(b, i, todo, v);
    EnterBucket(b.pNext, e, i, todo, v);
  }

  /** The next bucket of the chain, on the heap. */
  lemma {:induction false} NextIsStocked(b: Bucket, i: nat, todo: seq<Bucket>, v: View)
    requires Stocked(v.bset, v.m) && Standing(b, i, todo, v) && b.pNext != null
    ensures todo != [] && Standing(b.pNext, i, todo[1..], v)
    ensures b.pNext.pData != Null && ToMeet(b.pNext, b.pNext.pData, todo[1..], v.m) == VisitBuckets(todo, v.m)
  {
    NextInChain(b, i, todo, v);
    PassBucket(b, b.pNext.pData, i, todo, v);
  }

  /** From the end of a bucket to the next one, in its chain or another. */
  method NextBucket(ht: HashTable, b: Bucket, i: nat, ghost todo: seq<Bucket>, ghost v: View)
    returns (b': Bucket?, e': Entry, i': nat, ghost todo': seq<Bucket>)
    requires Table(ht, v) && Standing(b, i, todo, v)
    ensures e' != Null ==> Standing(b', i', todo', v)
    ensures ToMeet(b', e', todo', v.m) == VisitBuckets(todo, v.m)
  {
    if b.pNext == null {
      NextInChain(b, i, todo, v);
      b', e', i', todo' := EnterChain(ht, i + 1, todo, v);
    } else {
      NextIsStocked(b, i, todo, v);
      b', e', i', todo' := b.pNext, b.pNext.pData, i, todo[1..];
    }
  }

  /** The next entry of the walk. */
  method Step(ht: HashTable, b: Bucket, e: Entry, i: nat, ghost todo: seq<Bucket>, ghost v: View)
    returns (b': Bucket?, e': Entry, i': nat, ghost todo': seq<Bucket>)
    requires Table(ht, v) && e != Null && Standing(b, i, todo, v)
    ensures e' != Null ==> Standing(b', i', todo', v)
    ensures ToMeet(b, e, todo, v.m) == [Visit(e.str, b.nKeyLength)] + ToMeet(b', e', todo', v.m)
  {
    Leave(e, b.nKeyLength, VisitBuckets(todo, v.m));
    if e.next != Null {
      return b, e.next, i, todo;
    }
    b', e', i', todo' := NextBucket(ht, b, i, todo, v);
  }

  /** The loop of a call: entries are passed over until one stands under its whole length. */
  method Advance(ht: HashTable, b: Bucket?, e: Entry, i: nat, ghost todo: seq<Bucket>, ghost v: View)
    returns (ptr: Option<string>, b': Bucket?, e': Entry, i': nat, ghost todo': seq<Bucket>)
    requires Table(ht, v) && (e != Null ==> Standing(b, i, todo, v))
    ensures e' != Null ==> Standing(b', i', todo', v)
    ensures Whole(ToMeet(b, e, todo, v.m)) ==
      (if ptr.Some? then [ptr.value] else []) + Whole(ToMeet(b', e', todo', v.m))
    ensures ptr == None ==> e' == Null
  {
    ptr, b', e', i', todo' := None, b, e, i, todo;
    ghost var start := ToMeet(b, e, todo, v.m);
    while e' != Null && ptr == None
      invariant e' != Null ==> Standing(b', i', todo', v)
      invariant Whole(start) == (if ptr.Some? then [ptr.value] else []) + Whole(ToMeet(b', e', todo', v.m))
      decreases |ToMeet(b', e', todo', v.m)|
    {
      if |e'.str| == b'.nKeyLength {
        ptr := Some(e'.str);
      }
      b', e', i', todo' := Step(ht, b', e', i', todo', v);
    }
  }

  class Generator {
    var b: Bucket?
    var e: Entry
    var i: nat
    ghost var todo: seq<Bucket>

    constructor ()
      ensures e == Null
    {
      b, e, i, todo := null, Null, 0, [];
    }

    ghost predicate Resumable(v: View)
      reads this
    {
      e != Null ==> Standing(b, i, todo, v)
    }

    ghost function Pending(v: View): seq<Visit>
      reads this
      requires Resumable(v)
    {
      ToMeet(b, e, todo, v.m)
    }

    /**
      A call with empty text: the next word of the walk over the whole table, or null at its end.
      A first call starts over, except on an empty table, where it goes on with the old walk.
    */
    method NextOfAll(ht: HashTable, first: bool, ghost v: View) returns (ptr: Option<string>)
      requires Table(ht, v) && Complete(v)
      requires (first && Flat(v.heads, 0) != []) || Resumable(v)
      modifies this
      ensures Resumable(v)
      ensures Whole(if first && Flat(v.heads, 0) != [] then VisitBuckets(Flat(v.heads, 0), v.m) else old(Pending(v)))
           == (if ptr.Some? then [ptr.value] else []) + Whole(Pending(v))
      ensures ptr == None ==> e == Null
    {
      if first {
        StartOver(ht, v);
      }
      var b', e', i';
      ghost var todo';
      ptr, b', e', i', todo' := Advance(ht, b, e, i, todo, v);
      b, e, i, todo := b', e', i', todo';
    }

    /** To the first entry of the table, if there is one. */
    method StartOver(ht: HashTable, ghost v: View)
      requires Table(ht, v) && Complete(v) && (Flat(v.heads, 0) != [] || Resumable(v))
      modifies this
      ensures Resumable(v)
      ensures Pending(v) == if Flat(v.heads, 0) != [] then VisitBuckets(Flat(v.heads, 0), v.m) else old(Pending(v))
    {
      var b', e', i';
      ghost var todo';
      b', e', i', todo' := EnterChain(ht, 0, Flat(v.heads, 0), v);
      if e' != Null {
        b, e, todo := b', e', todo';
      } else {
        FlatOfEmpty(v.heads, 0, i + 1);
        FlatOfEmpty(v.heads, 0, i' + 1);
      }
      i := i';
    }

    /** A call with a non-empty text: the next entry of that prefix's bucket. */
    method NextOfPrefix(ht: HashTable, text: string, first: bool, ghost words: seq<string>)
      returns (ptr: Option<string>)
      requires text != "" && (first ==> ht.Valid() && Indexed(ht.index, words))
      modifies this`b, this`e
      ensures (if first then Matches(words, text) else old(Strings(e)))
           == (if ptr.Some? then [ptr.value] + Strings(e) else [])
    {
      if first {
        var len;
        b, len := ht.FindAllMatches(text, words);
        if b == null {
          return None;
        }
        e := b.pData;
      }
      if e == Null {
        return None;
      }
      ptr := Some(e.str);
      e := e.next;
    }
  }

  lemma {:induction false} ValidIsTable(ht: HashTable, words: seq<string>)
    requires ht.Valid() && Indexed(ht.index, words)
    ensures var v := View(ht.arBuckets[..], ht.buckets, ht.index);
      Table(ht, v) && Complete(v) && Known(ht.arBuckets[..], ht.index)
  {
    var heads := ht.arBuckets[..];
    BucketsAreStocked(ht, words);
    ChainsAreKnown(ht.buckets, heads, ht.slot, ht.index);
    FlatIsKnown(heads, 0, ht.index);
    ChainsAreWithin(ht.buckets, heads, ht.slot);
    FlatIsWithin(ht.buckets, heads, 0);
  }

  lemma {:induction false} BucketsAreStocked(ht: HashTable, words: seq<string>)
    requires ht.Valid() && Indexed(ht.index, words)
    ensures Stocked(ht.buckets, ht.index)
  {
    forall b | b in ht.buckets
      ensures KnownBucket(b, ht.index) && Strings(b.pData) == ht.index[b.key] && b.after == Chain(b.pNext)
    {
      assert Placed(b, ht.arBuckets[..], ht.slot) && ht.Filled(b);
    }
  }

  lemma {:induction false} ChainsAreKnown(
    buckets: set<Bucket>, heads: seq<Bucket?>, slot: string -> nat, m: map<string, seq<string>>)
    requires NoOthers(buckets, heads, slot)
    requires forall b :: b in buckets ==> KnownBucket(b, m)
    ensures Known(heads, m)
  {
    forall i | 0 <= i < |heads| ensures AllKnown(Chain(heads[i]), m) {
      forall j | 0 <= j < |Chain(heads[i])| ensures KnownBucket(Chain(heads[i])[j], m) {
        assert InChain(Chain(heads[i])[j], heads[i]);
      }
    }
  }

  ghost predicate AllWithin(heads: seq<Bucket?>, bset: set<Bucket>) {
    forall i :: 0 <= i < |heads| ==> Within(Chain(heads[i]), bset)
  }

  lemma {:induction false} FlatIsWithin(buckets: set<Bucket>, heads: seq<Bucket?>, i: nat)
    requires AllWithin(heads, buckets)
    ensures Within(Flat(heads, i), buckets)
    decreases |heads| - i
  {
    if i < |heads| {
      FlatIsWithin(buckets, heads, i + 1);
      var chain, rest := Chain(heads[i]), Flat(heads, i + 1);
      WithinAppend(chain, rest, buckets);
      assert Flat(heads, i) == chain + rest;
    }
  }

  lemma {:induction false} ChainsAreWithin(buckets: set<Bucket>, heads: seq<Bucket?>, slot: string -> nat)
    requires NoOthers(buckets, heads, slot)
    ensures AllWithin(heads, buckets)
  {
    forall i | 0 <= i < |heads| ensures Within(Chain(heads[i]), buckets) {
      forall j | 0 <= j < |Chain(heads[i])| ensures Chain(heads[i])[j] in buckets {
        assert InChain(Chain(heads[i])[j], heads[i]);
      }
    }
  }

  lemma {:induction false} WithinAppend(a: seq<Bucket>, b: seq<Bucket>, s: set<Bucket>)
    requires Within(a, s) && Within(b, s)
    ensures Within(a + b, s)
  {
  }

  /** A table filled with the words, in order. */
  method Build(words: seq<string>, nSize: nat, hash: string -> nat) returns (ht: HashTable)
    requires nSize > 0
    ensures fresh(ht) && fresh(ht.arBuckets) && fresh(ht.buckets) && ht.Valid() && Indexed(ht.index, words)
  {
    ht := new HashTable(nSize, hash);
    for i := 0 to |words|
      invariant fresh(ht) && fresh(ht.arBuckets) && fresh(ht.buckets) && ht.Valid() && Indexed(ht.index, words[..i])
    {
      ht.AddWord(words[i], words[..i]);
      assert words[..i + 1] == words[..i] + [words[i]];
    }
    assert words[..|words|] == words;
  }

  /**
    All completions of a text, asked for one by one until null: every word with that prefix, newest
    first; and for the empty text every non-empty word, once for each time it was added.
  */
  method Completions(words: seq<string>, text: string, nSize: nat, hash: string -> nat) returns (found: seq<string>)
    requires nSize > 0
    ensures text != "" ==> found == Matches(words, text)
    ensures text == "" ==> multiset(found) == multiset(NonEmpty(words))
  {
    var ht := Build(words, nSize, hash);
    var gen := new Generator();
    if text == "" {
      ghost var v := View(ht.arBuckets[..], ht.buckets, ht.index);
      ValidIsTable(ht, words);
      EachWordOnce(ht.buckets, v.heads, ht.slot, ht.index, words);
      found := DrainAll(ht, gen, v);
    } else {
      found := DrainPrefix(ht, gen, text, words);
    }
  }

  function Got(ptr: Option<string>): seq<string> { if ptr.Some? then [ptr.value] else [] }

  method DrainAll(ht: HashTable, gen: Generator, ghost v: View) returns (found: seq<string>)
    requires Table(ht, v) && Complete(v) && gen.e == Null
    modifies gen
    ensures found == Whole(VisitBuckets(Flat(v.heads, 0), v.m))
  {
    ghost var left := Whole(VisitBuckets(Flat(v.heads, 0), v.m));
    ghost var target := left;
    var ptr := gen.NextOfAll(ht, true, v);
    found := [];
    left := Whole(gen.Pending(v));
    while ptr.Some?
      invariant Table(ht, v) && gen.Resumable(v) && left == Whole(gen.Pending(v)) && (ptr == None ==> left == [])
      invariant found + (Got(ptr) + left) == target
      decreases ptr.Some?, |left|
    {
      Regroup(found, [ptr.value], left);
      found := found + [ptr.value];
      ptr := gen.NextOfAll(ht, false, v);
      left := Whole(gen.Pending(v));
    }
  }

  method DrainPrefix(ht: HashTable, gen: Generator, text: string, ghost words: seq<string>) returns (found: seq<string>)
    requires text != "" && ht.Valid() && Indexed(ht.index, words)
    modifies gen
    ensures found == Matches(words, text)
  {
    var ptr := gen.NextOfPrefix(ht, text, true, words);
    found := DrainEntries(ht, gen, text, ptr, words);
  }

  method DrainEntries(ht: HashTable, gen: Generator, text: string, ptr: Option<string>, ghost words: seq<string>)
    returns (found: seq<string>)
    requires text != ""
    modifies gen
    ensures found == if ptr.Some? then [ptr.value] + old(Strings(gen.e)) else []
  {
    found := [];
    var p := ptr;
    ghost var target := if ptr.Some? then [ptr.value] + Strings(gen.e) else [];
    while p.Some?
      invariant found + (if p.Some? then [p.value] + Strings(gen.e) else []) == target
      decreases p.Some?, |Strings(gen.e)|
    {
      Regroup(found, [p.value], Strings(gen.e));
      found := found + [p.value];
      p := gen.NextOfPrefix(ht, text, false, words);
    }
  }
}
