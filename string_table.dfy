/** The string-constant table: a chained hash table that interns texts and
    numbers each distinct text in the order it was first added. */
module StringTable {
  import opened Common
  import opened Hashing

  /** One `STRING_CONST`: the text and its index in the header's string
      list. An entry is never changed once created. */
  datatype StringConst = StringConst(text: string, index: u32)

  /** The first entry of a bucket chain whose text is `s`. */
  function FindText(chain: seq<StringConst>, s: string): (r: Option<StringConst>)
    ensures r.Some? ==> r.value in chain && r.value.text == s
    ensures r.None? <==> forall k :: 0 <= k < |chain| ==> chain[k].text != s
  {
    if chain == [] then None
    else if chain[0].text == s then Some(chain[0])
    else FindText(chain[1..], s)
  }

  lemma FindTextPrepend(e: StringConst, chain: seq<StringConst>, s: string)
    ensures FindText([e] + chain, s) == if e.text == s then Some(e) else FindText(chain, s)
  {
    assert ([e] + chain)[1..] == chain;
  }

  /** The bucket array `b` holds, in the bucket of each text's hash, exactly
      the entries of the map `strings`, the first one found per text. */
  ghost predicate Chained(b: seq<seq<StringConst>>, strings: map<string, u32>)
  {
    && |b| == HTABLE_SIZE
    && (forall i, k :: 0 <= i < HTABLE_SIZE && 0 <= k < |b[i]| ==> HashOf(b[i][k].text) == i)
    && (forall s :: s in strings <==> FindText(b[HashOf(s)], s).Some?)
    && (forall s :: s in strings ==> FindText(b[HashOf(s)], s) == Some(StringConst(s, strings[s])))
  }

  /** `order` lists each interned text once, in first-insertion order; the
      k-th text has index k (mod 2^32, as the counter wraps), and the counter
      is the number of texts (mod 2^32). */
  ghost predicate Numbered(order: seq<string>, strings: map<string, u32>, n: u32)
  {
    && (forall s :: s in strings <==> s in order)
    && (forall j, k :: 0 <= j < k < |order| ==> order[j] != order[k])
    && (forall k :: 0 <= k < |order| ==> order[k] in strings && strings[order[k]] == k % TWO_32)
    && n == |order| % TWO_32
  }

  lemma ChainedEmpty(b: seq<seq<StringConst>>)
    requires |b| == HTABLE_SIZE && forall i :: 0 <= i < HTABLE_SIZE ==> b[i] == []
    ensures Chained(b, map[])
  {
  }

  /** Prepending an entry for a new text to its bucket adds that text to
      the map and keeps every other text's entry. */
  lemma ChainedAdd(b: seq<seq<StringConst>>, strings: map<string, u32>, e: StringConst)
    requires Chained(b, strings) && e.text !in strings
    ensures Chained(b[HashOf(e.text) := [e] + b[HashOf(e.text)]], strings[e.text := e.index])
  {
    var h := HashOf(e.text);
    var b': seq<seq<StringConst>> := b[h := [e] + b[h]];
    var strings': map<string, u32> := strings[e.text := e.index];
    forall i, k | 0 <= i < HTABLE_SIZE && 0 <= k < |b'[i]|
      ensures HashOf(b'[i][k].text) == i
    {
      if i == h && k > 0 {
        assert b'[i][k] == b[i][k - 1];
      }
    }
    forall t
      ensures (t in strings' <==> FindText(b'[HashOf(t)], t).Some?)
      ensures t in strings' ==> FindText(b'[HashOf(t)], t) == Some(StringConst(t, strings'[t]))
    {
      if HashOf(t) == h {
        FindTextPrepend(e, b[h], t);
      }
    }
  }

  /** A new text numbered with the old counter keeps the numbering dense. */
  lemma NumberedAdd(order: seq<string>, strings: map<string, u32>, n: u32, s: string)
    requires Numbered(order, strings, n) && s !in strings
    ensures Numbered(order + [s], strings[s := n], (n + 1) % TWO_32)
  {
    var order': seq<string> := order + [s];
    forall k | 0 <= k < |order'|
      ensures order'[k] in strings[s := n] && strings[s := n][order'[k]] == k % TWO_32
    {
      if k < |order| {
        assert order'[k] == order[k];
      }
    }
    forall t
      ensures t in strings[s := n] <==> t in order'
    {
      if t in order' && t != s {
        var k :| 0 <= k < |order'| && order'[k] == t;
        assert order[k] == t;
      }
    }
  }

  /** While fewer than 2^32 texts are interned, the indices are exactly
      0 .. n-1, one per text, in first-insertion order. */
  lemma {:induction false} IndicesDense(order: seq<string>, strings: map<string, u32>, n: u32)
    requires Numbered(order, strings, n) && |order| < TWO_32
    ensures forall s :: s in strings ==> strings[s] < n
    ensures forall s, t :: s in strings && t in strings && s != t ==> strings[s] != strings[t]
    ensures forall k :: 0 <= k < n ==> order[k] in strings && strings[order[k]] == k
  {
    assert n == |order|;
    forall k | 0 <= k < |order|
      ensures strings[order[k]] == k
    {
      assert k % TWO_32 == k;
    }
    forall s | s in strings
      ensures strings[s] < n
    {
      var k :| 0 <= k < |order| && order[k] == s;
      assert strings[order[k]] == k;
    }
    forall s, t | s in strings && t in strings && s != t
      ensures strings[s] != strings[t]
    {
      var j :| 0 <= j < |order| && order[j] == s;
      var k :| 0 <= k < |order| && order[k] == t;
      assert strings[order[j]] == j && strings[order[k]] == k;
    }
  }

  class Table {
    /** `g_hash_strings`. */
    var buckets: array<seq<StringConst>>
    /** `g_n_strings` (a 32-bit counter). */
    var nStrings: u32
    /** The abstract map from each interned text to its index. */
    ghost var strings: map<string, u32>
    /** The interned texts in the order they were first added. */
    ghost var order: seq<string>

    ghost predicate Valid()
      reads this, buckets
    {
      && buckets.Length == HTABLE_SIZE
      && Chained(buckets[..], strings)
      && Numbered(order, strings, nStrings)
    }

    /** An empty table, as the zero-initialised static array is. */
    constructor ()
      ensures Valid() && fresh(buckets)
      ensures strings == map[] && order == [] && nStrings == 0
    {
      buckets := new seq<StringConst>[HTABLE_SIZE](_ => []);
      nStrings := 0;
      strings := map[];
      order := [];
      new;
      ChainedEmpty(buckets[..]);
    }

    /** `strtab_init`: every bucket empty and the counter reset. */
    method Init()
      requires buckets.Length == HTABLE_SIZE
      modifies this, buckets
      ensures Valid() && buckets == old(buckets)
      ensures strings == map[] && order == [] && nStrings == 0
      ensures forall i :: 0 <= i < HTABLE_SIZE ==> buckets[i] == []
    {
      nStrings := 0;
      var i := 0;
      while i < HTABLE_SIZE
        invariant 0 <= i <= HTABLE_SIZE
        invariant buckets == old(buckets) && nStrings == 0
        invariant forall j :: 0 <= j < i ==> buckets[j] == []
      {
        buckets[i] := [];
        i := i + 1;
      }
      strings := map[];
      order := [];
      ChainedEmpty(buckets[..]);
    }

    /** `strtab_lookup_string`: the entry of `s`, if it was interned. */
    method Lookup(s: string) returns (r: Option<StringConst>)
      requires Valid()
      ensures r == if s in strings then Some(StringConst(s, strings[s])) else None
    {
      var h := Hash(s);
      var chain := buckets[h];
      var k := 0;
      while k < |chain| && chain[k].text != s
        invariant 0 <= k <= |chain|
        invariant FindText(chain, s) == FindText(chain[k..], s)
      {
        assert chain[k..][1..] == chain[k + 1..];
        k := k + 1;
      }
      r := if k < |chain| then Some(chain[k]) else None;
    }

    /** `strtab_add_string`: an interned text gives back its existing entry
        and changes nothing; a new text gets the next index (the old
        counter) and is prepended to its bucket. */
    method AddString(s: string) returns (r: StringConst)
      requires Valid()
      modifies this, buckets
      ensures Valid() && buckets == old(buckets)
      ensures r.text == s && s in strings && strings[s] == r.index
      ensures s in old(strings) ==>
        && r.index == old(strings)[s]
        && strings == old(strings) && order == old(order) && nStrings == old(nStrings)
        && buckets[..] == old(buckets[..])
      ensures s !in old(strings) ==>
        && r.index == old(nStrings)
        && strings == old(strings)[s := old(nStrings)]
        && order == old(order) + [s]
        && nStrings == (old(nStrings) + 1) % TWO_32
        && buckets[..] == old(buckets[..])[HashOf(s) := [r] + old(buckets[HashOf(s)])]
    {
      var found := Lookup(s);
      if found.Some? {
        r := found.value;
        return;
      }
      var h := Hash(s);
      ghost var before := buckets[..];
      r := StringConst(s, nStrings);
      ChainedAdd(before, strings, r);
      NumberedAdd(order, strings, nStrings, s);
      buckets[h] := [r] + buckets[h];
      assert buckets[..] == before[h := [r] + before[h]];
      nStrings := (nStrings + 1) % TWO_32;
      strings := strings[s := r.index];
      order := order + [s];
    }
  }
}
