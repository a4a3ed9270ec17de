/**
  The completion index of client/completion_hash.cc and client/completion_hash.h: a chained hash
  table that stores every word under each of its prefixes.
*/
module CompletionIndex {

  // ---------------------------------------------------------------- reference

  /** The added words that start with `k`, newest first. */
  function Matches(words: seq<string>, k: string): seq<string> {
    if words == [] then []
    else
      var w := words[|words| - 1];
      (if k <= w then [w] else []) + Matches(words[..|words| - 1], k)
  }

  lemma {:induction false} MatchesAdd(words: seq<string>, w: string, k: string)
    ensures Matches(words + [w], k) == (if k <= w then [w] else []) + Matches(words, k)
  {
    assert (words + [w])[..|words|] == words;
  }

  /** The matches are the added words with that prefix. */
  lemma {:induction false} MatchesAre(words: seq<string>, k: string, w: string)
    ensures w in Matches(words, k) <==> w in words && k <= w
    decreases |words|
  {
    if words != [] {
      var rest := words[..|words| - 1];
      MatchesAre(rest, k, w);
      assert words == rest + [words[|words| - 1]];
    }
  }

  /** Narrowing a prefix loses no match exactly when every match has the longer prefix. */
  lemma {:induction false} Narrow(words: seq<string>, k: string, k': string)
    requires k <= k'
    ensures |Matches(words, k')| <= |Matches(words, k)|
    ensures |Matches(words, k')| == |Matches(words, k)| <==> forall w :: w in Matches(words, k) ==> k' <= w
    decreases |words|
  {
    if words != [] {
      var w, rest := words[|words| - 1], words[..|words| - 1];
      Narrow(rest, k, k');
      if k <= w {
        assert w in Matches(words, k);
        assert forall x :: x in Matches(words, k) <==> x == w || x in Matches(rest, k);
      } else {
        assert Matches(words, k) == Matches(rest, k) && !(k' <= w);
      }
    }
  }

  // ---------------------------------------------------------------- the hash function

  /** A byte as the signed `char` it is added as. */
  function SignExtended(c: char): bv32 {
    var b := (c as int % 256) as bv32;
    if b & 0x80 == 0 then b else b | 0xFFFF_FF00
  }

  /** One byte: what would leave the lower 28 bits is folded back in. */
  function PjwStep(h: bv32, x: bv32): (r: bv32)
    ensures r & 0xF000_0000 == 0
  {
    var h' := (h << 4) + x;
    var g := h' & 0xF000_0000;
    if g == 0 then h' else (h' ^ (g >> 24)) ^ g
  }

  function Pjw(key: string): bv32 {
    if key == "" then 0 else PjwStep(Pjw(key[..|key| - 1]), SignExtended(key[|key| - 1]))
  }

  /** hashpjw: the hash never leaves its lower 28 bits, so the shift of the next step loses none. */
  method Hashpjw(arKey: string, nKeyLength: nat) returns (h: bv32)
    requires nKeyLength <= |arKey|
    ensures h == Pjw(arKey[..nKeyLength]) && h & 0xF000_0000 == 0
  {
    h := 0;
    for i := 0 to nKeyLength
      invariant h == Pjw(arKey[..i]) && h & 0xF000_0000 == 0
    {
      assert arKey[..i + 1][..i] == arKey[..i];
      h := PjwStep(h, SignExtended(arKey[i]));
    }
  }

  // ---------------------------------------------------------------- the table

  /** A list of entries; a cell is never changed once it is linked. */
  datatype Entry = Null | Entry(str: string, next: Entry)

  function Strings(e: Entry): seq<string> {
    match e
    case Null => []
    case Entry(str, next) => [str] + Strings(next)
  }

  class Bucket {
    const h: nat
    const arKey: string
    const nKeyLength: nat
    const pNext: Bucket?
    ghost const key: string             // the first nKeyLength bytes of arKey
    ghost const after: seq<Bucket>      // the buckets behind this one in its chain
    var count: nat
    var pData: Entry

    constructor (h: nat, arKey: string, nKeyLength: nat, str: string, pNext: Bucket?)
      requires nKeyLength <= |arKey|
      ensures this.h == h && this.arKey == arKey && this.nKeyLength == nKeyLength && this.pNext == pNext
      ensures Keyed() && after == Chain(pNext) && count == 1 && pData == Entry(str, Null)
    {
      this.h, this.arKey, this.nKeyLength, this.pNext := h, arKey, nKeyLength, pNext;
      key, after := arKey[..nKeyLength], Chain(pNext);
      count, pData := 1, Entry(str, Null);
    }

    ghost predicate Keyed() { nKeyLength <= |arKey| && key == arKey[..nKeyLength] }
  }

  /** The buckets of a chain from its head. */
  ghost function Chain(b: Bucket?): seq<Bucket> {
    if b == null then [] else [b] + b.after
  }

  function Insert(m: map<string, seq<string>>, key: string, str: string): map<string, seq<string>> {
    m[key := [str] + (if key in m then m[key] else [])]
  }

  lemma {:induction false} InsertKeepsKeys(m: map<string, seq<string>>, key: string, str: string)
    requires key in m
    ensures Insert(m, key, str).Keys == m.Keys
  {
  }

  ghost predicate InChain(older b: Bucket, head: Bucket?) { b in Chain(head) }

  /** A bucket is in the chain its key selects.  Only fields that never change are involved. */
  ghost predicate Placed(b: Bucket, heads: seq<Bucket?>, slot: string -> nat) {
    && b.Keyed() && b.key != "" && b.after == Chain(b.pNext)
    && slot(b.key) < |heads| && InChain(b, heads[slot(b.key)])
  }

  /** The buckets are those of the chains, and each key has one. */
  ghost predicate Linked(buckets: set<Bucket>, heads: seq<Bucket?>, slot: string -> nat) {
    AllPlaced(buckets, heads, slot) && NoOthers(buckets, heads, slot) && OnePerKey(buckets)
  }

  ghost predicate AllPlaced(buckets: set<Bucket>, heads: seq<Bucket?>, slot: string -> nat) {
    forall b :: b in buckets ==> Placed(b, heads, slot)
  }

  ghost predicate NoOthers(buckets: set<Bucket>, heads: seq<Bucket?>, slot: string -> nat) {
    forall i :: 0 <= i < |heads| ==> HoldsOnly(heads[i], buckets, slot, i)
  }

  /** A chain holds only buckets whose keys select it. */
  ghost predicate HoldsOnly(head: Bucket?, buckets: set<Bucket>, slot: string -> nat, i: nat) {
    forall b :: InChain(b, head) ==> b in buckets && slot(b.key) == i
  }

  ghost predicate OnePerKey(buckets: set<Bucket>) {
    forall a, b :: a in buckets && b in buckets && a.key == b.key ==> a == b
  }

  /** The walk down a chain has come to `p` and has not met `key` before it. */
  ghost predicate Searched(chain: seq<Bucket>, j: nat, p: Bucket?, key: string) {
    j <= |chain| && Chain(p) == chain[j..] && forall k :: 0 <= k < j ==> chain[k].key != key
  }

  lemma {:induction false} InOwnChain(
    buckets: set<Bucket>, heads: seq<Bucket?>, slot: string -> nat, n: nat, chain: seq<Bucket>, j: nat, p: Bucket,
    key: string)
    requires Linked(buckets, heads, slot) && n < |heads| && chain == Chain(heads[n]) && Searched(chain, j, p, key)
    ensures p in buckets && p.Keyed() && p.after == Chain(p.pNext)
  {
    assert p == chain[j..][0] == chain[j];
    assert InChain(p, heads[n]);
    assert HoldsOnly(heads[n], buckets, slot, n);
    assert Placed(p, heads, slot);
  }

  lemma {:induction false} SearchOn(chain: seq<Bucket>, j: nat, p: Bucket, key: string)
    requires Searched(chain, j, p, key) && p.after == Chain(p.pNext) && p.key != key
    ensures j < |chain| && Searched(chain, j + 1, p.pNext, key)
  {
    assert p == chain[j..][0] == chain[j];
    assert chain[j + 1..] == chain[j..][1..] == p.after;
  }

  /** A key that its own chain does not hold has no bucket. */
  lemma {:induction false} NotInChain(
    buckets: set<Bucket>, heads: seq<Bucket?>, slot: string -> nat, key: string, chain: seq<Bucket>, j: nat)
    requires Linked(buckets, heads, slot) && slot(key) < |heads| && chain == Chain(heads[slot(key)])
    requires Searched(chain, j, null, key)
    ensures !HasBucket(buckets, key)
  {
    assert j == |chain|;
    forall b | b in buckets ensures b.key != key {
      assert Placed(b, heads, slot);
      assert b.key == key ==> b in chain;
    }
  }

  ghost predicate HasBucket(buckets: set<Bucket>, key: string) {
    exists b :: b in buckets && b.key == key
  }

  /** A bucket stays in its chain when another is linked before the head of one. */
  lemma {:induction false} PlacedStep(b: Bucket, heads: seq<Bucket?>, slot: string -> nat, p: Bucket, n: nat)
    requires Placed(b, heads, slot) && n < |heads| && p.pNext == heads[n] && p.after == Chain(p.pNext)
    ensures Placed(b, heads[n := p], slot)
  {
    assert Chain(p) == [p] + Chain(heads[n]);
  }

  lemma {:induction false} AllPlacedStep(
    buckets: set<Bucket>, heads: seq<Bucket?>, slot: string -> nat, p: Bucket, n: nat)
    requires AllPlaced(buckets, heads, slot) && p.Keyed() && p.key != "" && n == slot(p.key) < |heads|
    requires p.pNext == heads[n] && p.after == Chain(p.pNext)
    ensures AllPlaced(buckets + {p}, heads[n := p], slot)
  {
    forall b | b in buckets + {p} ensures Placed(b, heads[n := p], slot) {
      if b in buckets {
        PlacedStep(b, heads, slot, p, n);
      } else {
        assert InChain(p, heads[n := p][n]);
      }
    }
  }

  lemma {:induction false} HoldsOnlyMore(head: Bucket?, buckets: set<Bucket>, slot: string -> nat, i: nat, p: Bucket)
    requires HoldsOnly(head, buckets, slot, i)
    ensures HoldsOnly(head, buckets + {p}, slot, i)
  {
  }

  lemma {:induction false} HoldsOnlyHead(p: Bucket, buckets: set<Bucket>, slot: string -> nat, i: nat)
    requires HoldsOnly(p.pNext, buckets, slot, i) && p.after == Chain(p.pNext) && slot(p.key) == i
    ensures HoldsOnly(p, buckets + {p}, slot, i)
  {
    forall b | InChain(b, p) ensures b in buckets + {p} && slot(b.key) == i {
      assert Chain(p) == [p] + Chain(p.pNext);
      assert b == p || InChain(b, p.pNext);
    }
  }

  lemma {:induction false} NoOthersStep(
    buckets: set<Bucket>, heads: seq<Bucket?>, slot: string -> nat, p: Bucket, n: nat)
    requires NoOthers(buckets, heads, slot) && n == slot(p.key) < |heads|
    requires p.pNext == heads[n] && p.after == Chain(p.pNext)
    ensures NoOthers(buckets + {p}, heads[n := p], slot)
  {
    var heads' := heads[n := p];
    forall i | 0 <= i < |heads'| ensures HoldsOnly(heads'[i], buckets + {p}, slot, i) {
      if i == n {
        HoldsOnlyHead(p, buckets, slot, n);
      } else {
        HoldsOnlyMore(heads[i], buckets, slot, i, p);
      }
    }
  }

  lemma {:induction false} OnePerKeyStep(buckets: set<Bucket>, p: Bucket)
    requires OnePerKey(buckets) && !HasBucket(buckets, p.key)
    ensures OnePerKey(buckets + {p})
  {
  }

  /** Linking a bucket with a new key at the head of its chain. */
  lemma {:induction false} LinkedStep(buckets: set<Bucket>, heads: seq<Bucket?>, slot: string -> nat, p: Bucket)
    requires Linked(buckets, heads, slot)
    requires p.Keyed() && p.key != "" && !HasBucket(buckets, p.key)
    requires slot(p.key) < |heads| && p.pNext == heads[slot(p.key)] && p.after == Chain(p.pNext)
    ensures Linked(buckets + {p}, heads[slot(p.key) := p], slot)
  {
    AllPlacedStep(buckets, heads, slot, p, slot(p.key));
    NoOthersStep(buckets, heads, slot, p, slot(p.key));
    OnePerKeyStep(buckets, p);
  }

  /** The index of a list of words: under every non-empty prefix, the words that have it. */
  ghost predicate Indexed(m: map<string, seq<string>>, words: seq<string>) {
    forall k {:trigger k in m} ::
      (k in m <==> k != "" && Matches(words, k) != []) && (k in m ==> m[k] == Matches(words, k))
  }

  /** What is stored under `k` once the prefixes of `w` up to length `i` are done. */
  function Partly(words: seq<string>, w: string, i: nat, k: string): seq<string> {
    if |k| <= i && k <= w then [w] + Matches(words, k) else Matches(words, k)
  }

  ghost predicate PartlyIndexed(m: map<string, seq<string>>, words: seq<string>, w: string, i: nat) {
    forall k {:trigger k in m} ::
      (k in m <==> k != "" && Partly(words, w, i, k) != []) && (k in m ==> m[k] == Partly(words, w, i, k))
  }

  lemma {:induction false} PartStep(m: map<string, seq<string>>, words: seq<string>, w: string, i: nat)
    requires PartlyIndexed(m, words, w, i) && i < |w|
    ensures PartlyIndexed(Insert(m, w[..i + 1], w), words, w, i + 1)
  {
    var key := w[..i + 1];
    var m' := Insert(m, key, w);
    forall k ensures (k in m' <==> k != "" && Partly(words, w, i + 1, k) != [])
      && (k in m' ==> m'[k] == Partly(words, w, i + 1, k))
    {
      assert k in m <==> k != "" && Partly(words, w, i, k) != [];
      assert |k| == i + 1 && k <= w ==> k == key;
    }
  }

  lemma {:induction false} PartEnd(m: map<string, seq<string>>, words: seq<string>, w: string)
    requires PartlyIndexed(m, words, w, |w|)
    ensures Indexed(m, words + [w])
  {
    forall k ensures (k in m <==> k != "" && Matches(words + [w], k) != [])
      && (k in m ==> m[k] == Matches(words + [w], k))
    {
      MatchesAdd(words, w, k);
      assert k in m <==> k != "" && Partly(words, w, |w|, k) != [];
    }
  }

  ghost predicate IsCommonPrefix(p: string, ws: seq<string>) { forall w :: w in ws ==> p <= w }

  ghost predicate IsLongestCommonPrefix(p: string, ws: seq<string>) {
    IsCommonPrefix(p, ws) && forall q :: IsCommonPrefix(q, ws) ==> |q| <= |p|
  }

  /** The first `lm` characters of the match `s` are common to all matches of `str`. */
  ghost predicate Shared(words: seq<string>, str: string, s: string, lm: nat) {
    |str| <= lm <= |s| && s in Matches(words, str) && str <= s && IsCommonPrefix(s[..lm], Matches(words, str))
  }

  lemma {:induction false} FirstMatch(words: seq<string>, str: string, e: Entry)
    requires Strings(e) == Matches(words, str) != []
    ensures e.Entry? && Shared(words, str, e.str, |str|) && str == e.str[..|str|]
  {
    assert e.str == Strings(e)[0];
    forall w | w in Matches(words, str) ensures str <= w {
      MatchesAre(words, str, w);
    }
    assert e.str in Matches(words, str);
    assert str == e.str[..|str|];
  }

  /** Whether one more character of `s` is common to all matches shows in the counts. */
  lemma {:induction false} Longer(words: seq<string>, str: string, s: string, lm: nat)
    requires Shared(words, str, s, lm) && lm < |s|
    ensures var m, m' := Matches(words, str), Matches(words, s[..lm + 1]);
      && m' != [] && |m'| <= |m|
      && (if |m'| == |m| then Shared(words, str, s, lm + 1) else IsLongestCommonPrefix(s[..lm], m))
  {
    var m, k := Matches(words, str), s[..lm + 1];
    MatchesAre(words, str, s);
    MatchesAre(words, k, s);
    Narrow(words, str, k);
    if |Matches(words, k)| != |m| {
      var w :| w in m && !(k <= w);
      forall q | IsCommonPrefix(q, m) ensures |q| <= lm {
        assert q <= s && q <= w;
        assert |q| <= lm || k <= q;
      }
    }
  }

  /** A match that is a common prefix itself leaves nothing longer. */
  lemma {:induction false} WholeMatch(words: seq<string>, str: string, s: string, lm: nat)
    requires Shared(words, str, s, lm) && lm == |s|
    ensures IsLongestCommonPrefix(s[..lm], Matches(words, str))
  {
    forall q | IsCommonPrefix(q, Matches(words, str)) ensures |q| <= lm {
      assert q <= s;
    }
  }

  class HashTable {
    const nTableSize: nat
    const pHashFunction: string -> nat
    const arBuckets: array<Bucket?>
    ghost const slot: string -> nat             // the chain a key selects
    ghost var index: map<string, seq<string>>   // what is stored under each key, newest first
    ghost var buckets: set<Bucket>

    ghost predicate Filled(b: Bucket)
      reads this, b
    {
      b.h == pHashFunction(b.key) && b.key in index && Strings(b.pData) == index[b.key] && b.count == |index[b.key]|
    }

    ghost predicate Valid()
      reads this, arBuckets, buckets
    {
      && 0 < nTableSize == arBuckets.Length && (forall k {:trigger slot(k)} :: slot(k) == pHashFunction(k) % nTableSize)
      && Linked(buckets, arBuckets[..], slot)
      && (forall b :: b in buckets ==> Filled(b))
      && (forall key :: key in index ==> key != "" && HasBucket(buckets, key))
    }

    constructor (nSize: nat, hash: string -> nat)
      requires nSize > 0
      ensures Valid() && index == map[] && buckets == {} && fresh(arBuckets)
      ensures nTableSize == nSize && pHashFunction == hash
    {
      nTableSize, pHashFunction, slot := nSize, hash, (k: string) => hash(k) % nSize;
      arBuckets := new Bucket?[nSize](_ => null);
      index, buckets := map[], {};
    }

    /** completion_hash_clean: every chain is emptied, and so is the index. */
    method Clean()
      requires Valid()
      modifies this`index, this`buckets, arBuckets
      ensures Valid() && Indexed(index, []) && buckets == {}
    {
      forall i | 0 <= i < arBuckets.Length { arBuckets[i] := null; }
      index, buckets := map[], {};
      assert forall i :: 0 <= i < arBuckets.Length ==> arBuckets[..][i] == null;
    }

    /** The bucket of a key, or null. */
    method Find(arKey: string, nKeyLength: nat) returns (p: Bucket?)
      requires Valid() && nKeyLength <= |arKey|
      ensures p == null <==> arKey[..nKeyLength] !in index
      ensures p != null ==> p in buckets && p.key == arKey[..nKeyLength]
    {
      ghost var key := arKey[..nKeyLength];
      var h := pHashFunction(arKey[..nKeyLength]);
      var nIndex := h % nTableSize;
      ghost var heads := arBuckets[..];
      ghost var chain := Chain(heads[nIndex]);
      assert slot(key) == nIndex;
      ghost var j: nat := 0;
      p := arBuckets[nIndex];
      while p != null
        invariant Searched(chain, j, p, key)
        decreases |chain| - j
      {
        InOwnChain(buckets, heads, slot, nIndex, chain, j, p, key);
        assert Filled(p);
        if p.h == h && p.nKeyLength == nKeyLength {
          if p.arKey[..nKeyLength] == arKey[..nKeyLength] {
            return;
          }
        }
        SearchOn(chain, j, p, key);
        p, j := p.pNext, j + 1;
      }
      NotInChain(buckets, heads, slot, key, chain, j);
    }

    /** Adds one more string under a key that has a bucket. */
    method Extend(p: Bucket, str: string)
      requires Valid() && p in buckets
      modifies this`index, p
      ensures Valid() && index == Insert(old(index), p.key, str)
    {
      assert Filled(p);
      p.pData := Entry(str, p.pData);
      p.count := p.count + 1;
      index := Insert(index, p.key, str);
      InsertKeepsKeys(old(index), p.key, str);
      forall b | b in buckets ensures Filled(b) {
        assert old(Filled(b));
      }
    }

    /** Puts a bucket with a new key at the head of its chain. */
    method Hook(p: Bucket, nIndex: nat, str: string)
      requires Valid() && p.Keyed() && p.key != "" && p.key !in index && p !in buckets
      requires p.h == pHashFunction(p.key) && nIndex == p.h % nTableSize
      requires p.pNext == arBuckets[nIndex] && p.after == Chain(p.pNext)
      modifies this`index, this`buckets, arBuckets
      ensures Linked(buckets, arBuckets[..], slot)
      ensures index == Insert(old(index), p.key, str) && buckets == old(buckets) + {p}
    {
      ghost var heads := arBuckets[..];
      assert slot(p.key) == nIndex;
      assert !HasBucket(buckets, p.key) by {
        assert forall b :: b in buckets ==> Filled(b);
      }
      LinkedStep(buckets, heads, slot, p);
      arBuckets[nIndex] := p;
      assert arBuckets[..] == heads[nIndex := p];
      index, buckets := Insert(index, p.key, str), buckets + {p};
    }

    /** Makes a bucket for a new key. */
    method Link(arKey: string, nKeyLength: nat, str: string)
      requires Valid() && 0 < nKeyLength <= |arKey| && arKey[..nKeyLength] !in index
      modifies this`index, this`buckets, arBuckets
      ensures Valid() && index == Insert(old(index), arKey[..nKeyLength], str)
      ensures old(buckets) <= buckets && fresh(buckets - old(buckets))
    {
      var h := pHashFunction(arKey[..nKeyLength]);
      var nIndex := h % nTableSize;
      var p := new Bucket(h, arKey, nKeyLength, str, arBuckets[nIndex]);
      Hook(p, nIndex, str);
      LinkFills(p, str);
    }

    twostate lemma LinkFills(new p: Bucket, str: string)
      requires old(Valid()) && fresh(p) && p.Keyed() && p.key != "" && p.key !in old(index)
      requires p.h == pHashFunction(p.key) && p.pData == Entry(str, Null) && p.count == 1
      requires buckets == old(buckets) + {p} && index == Insert(old(index), p.key, str)
      requires forall b :: b in old(buckets) ==> unchanged(b)
      ensures forall b :: b in buckets ==> Filled(b)
      ensures forall k :: k in index ==> k != "" && HasBucket(buckets, k)
    {
      assert Strings(p.pData) == [str] + Strings(Null) == [str] + [];
      assert Filled(p);
      forall b | b in old(buckets) ensures Filled(b) {
        assert old(Placed(b, arBuckets[..], slot)) && old(Filled(b));
      }
      forall k | k in index ensures k != "" && HasBucket(buckets, k) {
        if k == p.key {
          assert p in buckets;
        } else {
          assert HasBucket(old(buckets), k);
        }
      }
    }

    /** completion_hash_update: stores a string under the first `nKeyLength` bytes of `arKey`. */
    method Update(arKey: string, nKeyLength: nat, str: string) returns (ok: bool)
      requires Valid() && nKeyLength <= |arKey|
      modifies this`index, this`buckets, arBuckets, buckets
      ensures Valid() && (ok <==> nKeyLength > 0)
      ensures index == if ok then Insert(old(index), arKey[..nKeyLength], str) else old(index)
      ensures old(buckets) <= buckets && fresh(buckets - old(buckets))
    {
      if nKeyLength == 0 {
        return false;
      }
      var p := Find(arKey, nKeyLength);
      if p != null {
        Extend(p, str);
      } else {
        Link(arKey, nKeyLength, str);
      }
      return true;
    }

    /** add_word: stores a word under each of its prefixes. */
    method AddWord(str: string, ghost words: seq<string>)
      requires Valid() && Indexed(index, words)
      modifies this`index, this`buckets, arBuckets, buckets
      ensures Valid() && Indexed(index, words + [str])
      ensures old(buckets) <= buckets && fresh(buckets - old(buckets))
    {
      for i := 0 to |str|
        invariant Valid() && PartlyIndexed(index, words, str, i)
        invariant old(buckets) <= buckets && fresh(buckets - old(buckets))
      {
        AddPrefix(str, i + 1, words);
      }
      PartEnd(index, words, str);
    }

    /** One round of add_word. */
    method AddPrefix(str: string, n: nat, ghost words: seq<string>)
      requires Valid() && 0 < n <= |str| && PartlyIndexed(index, words, str, n - 1)
      modifies this`index, this`buckets, arBuckets, buckets
      ensures Valid() && PartlyIndexed(index, words, str, n)
      ensures old(buckets) <= buckets && fresh(buckets - old(buckets))
    {
      PartStep(index, words, str, n - 1);
      var _ := Update(str, n, str);
    }

    /** completion_hash_find, in terms of the words added so far. */
    method Lookup(key: string, ghost words: seq<string>) returns (b: Bucket?)
      requires Valid() && Indexed(index, words)
      ensures b == null <==> key == "" || Matches(words, key) == []
      ensures b != null ==>
        && b in buckets && b.key == key
        && Strings(b.pData) == Matches(words, key) && b.count == |Matches(words, key)|
    {
      assert key[..|key|] == key;
      b := Find(key, |key|);
      assert b != null ==> Filled(b);
    }

    /**
      find_all_matches: the bucket of a non-empty prefix holds exactly the added words with that
      prefix, newest first, and their number; there is none when no word has it.
    */
    method FindAllMatches(str: string, ghost words: seq<string>) returns (b: Bucket?, resLength: nat)
      requires Valid() && Indexed(index, words)
      ensures b == null <==> str == "" || Matches(words, str) == []
      ensures b == null ==> resLength == 0
      ensures b != null ==>
        && b in buckets && b.key == str && resLength == |str|
        && Strings(b.pData) == Matches(words, str) && b.count == |Matches(words, str)|
    {
      b := Lookup(str, words);
      resLength := if b == null then 0 else |str|;
    }

    /** The bucket of one more character of `s`; its count says whether all matches have it. */
    method LookLonger(str: string, s: string, lm: nat, count: nat, ghost words: seq<string>) returns (next: Bucket?)
      requires Valid() && Indexed(index, words)
      requires Shared(words, str, s, lm) && lm < |s| && count == |Matches(words, str)|
      ensures next != null && next in buckets && next.key == s[..lm + 1]
      ensures if next.count < count then IsLongestCommonPrefix(s[..lm], Matches(words, str))
              else Shared(words, str, s, lm + 1)
    {
      Longer(words, str, s, lm);
      next := Lookup(s[..lm + 1], words);
    }

    /** The loop: from the bucket of `str` to longer and longer prefixes of the match `s`. */
    method Lengthen(first: Bucket, str: string, s: string, count: nat, ghost words: seq<string>)
      returns (b: Bucket, lm: nat)
      requires Valid() && Indexed(index, words) && first in buckets && first.key == str
      requires Shared(words, str, s, |str|) && count == |Matches(words, str)|
      ensures b in buckets && IsLongestCommonPrefix(b.key, Matches(words, str)) && lm == |b.key|
    {
      b, lm := first, |str|;
      assert str == s[..lm];
      while lm < |s|
        invariant Shared(words, str, s, lm) && b in buckets && b.key == s[..lm]
      {
        var next := LookLonger(str, s, lm, count, words);
        if next == null {
          break;
        }
        if next.count < count {
          return b, lm;
        }
        b, lm := next, lm + 1;
      }
      WholeMatch(words, str, s, lm);
    }

    /**
      find_longest_match: the longest common prefix of all added words that start with `str`,
      and the bucket of that prefix.
    */
    method FindLongestMatch(str: string, ghost words: seq<string>) returns (b: Bucket?, resLength: nat)
      requires Valid() && Indexed(index, words)
      ensures b == null <==> str == "" || Matches(words, str) == []
      ensures b == null ==> resLength == 0
      ensures b != null ==>
        && b in buckets
        && IsLongestCommonPrefix(b.key, Matches(words, str)) && resLength == |b.key|
    {
      var first := Lookup(str, words);
      if first == null {
        return null, 0;
      }
      FirstMatch(words, str, first.pData);
      b, resLength := Lengthen(first, str, first.pData.str, first.count, words);
    }
  }
}
