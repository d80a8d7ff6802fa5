/** The label table: a chained hash table of labels indexed by `HashOf`.
    Each label carries the list of code addresses still waiting for its
    address (its backpatch list), extended by prepending. */
module SymbolTable {
  import opened Common
  import opened Hashing

  /** One `LABEL`. The name and the kind are fixed when the label is
      created; the address fields and the backpatch list may change. */
  class Label {
    const name: string
    const isTask: bool
    var addrSet: bool
    var addr: u32
    /** Backpatch sites, most recently added first. */
    var backpatch: seq<u32>

    constructor (name: string, addr: u32, isTask: bool)
      ensures this.name == name && this.addr == addr && this.isTask == isTask
      ensures !addrSet && backpatch == []
    {
      this.name := name;
      this.isTask := isTask;
      this.addrSet := false;
      this.addr := addr;
      this.backpatch := [];
    }

    /** `symtab_add_backpatch`: prepend one site; nothing else of the label
        changes. */
    method AddBackpatch(site: u32)
      modifies this`backpatch
      ensures backpatch == [site] + old(backpatch)
    {
      backpatch := [site] + backpatch;
    }
  }

  /** The first label of a bucket chain that carries `name`. */
  function Find(chain: seq<Label>, name: string): (r: Option<Label>)
    ensures r.Some? ==> r.value in chain && r.value.name == name
    ensures r.None? <==> forall k :: 0 <= k < |chain| ==> chain[k].name != name
  {
    if chain == [] then None
    else if chain[0].name == name then Some(chain[0])
    else Find(chain[1..], name)
  }

  /** Prepending a label makes it the one found for its name and leaves every
      other name's search unchanged: an older label of the same name is
      shadowed, not removed. */
  lemma FindPrepend(l: Label, chain: seq<Label>, n: string)
    ensures Find([l] + chain, n) == if l.name == n then Some(l) else Find(chain, n)
  {
    assert ([l] + chain)[1..] == chain;
  }

  /** The bucket array `b` holds, in the bucket of each name's hash, the
      labels of that hash, and the first label found for each name is the
      one the map `labels` gives. */
  ghost predicate Chained(b: seq<seq<Label>>, labels: map<string, Label>)
  {
    && |b| == HTABLE_SIZE
    && (forall i, k :: 0 <= i < HTABLE_SIZE && 0 <= k < |b[i]| ==> HashOf(b[i][k].name) == i)
    && (forall n :: n in labels <==> Find(b[HashOf(n)], n).Some?)
    && (forall n :: n in labels ==> Find(b[HashOf(n)], n) == Some(labels[n]))
    && (forall n :: n in labels ==> labels[n].name == n)
  }

  lemma ChainedEmpty(b: seq<seq<Label>>)
    requires |b| == HTABLE_SIZE && forall i :: 0 <= i < HTABLE_SIZE ==> b[i] == []
    ensures Chained(b, map[])
  {
  }

  /** Prepending a label to the bucket of its name makes it the label of
      that name and keeps every other name's label. */
  lemma ChainedPrepend(b: seq<seq<Label>>, labels: map<string, Label>, l: Label)
    requires Chained(b, labels)
    ensures Chained(b[HashOf(l.name) := [l] + b[HashOf(l.name)]], labels[l.name := l])
  {
    var h := HashOf(l.name);
    var b': seq<seq<Label>> := b[h := [l] + b[h]];
    var labels' := labels[l.name := l];
    forall i, k | 0 <= i < HTABLE_SIZE && 0 <= k < |b'[i]|
      ensures HashOf(b'[i][k].name) == i
    {
      if i == h && k > 0 {
        assert b'[i][k] == b[i][k - 1];
      }
    }
    forall n
      ensures (n in labels' <==> Find(b'[HashOf(n)], n).Some?)
      ensures n in labels' ==> Find(b'[HashOf(n)], n) == Some(labels'[n])
    {
      if HashOf(n) == h {
        FindPrepend(l, b[h], n);
      }
    }
  }

  class Table {
    /** `g_hash_labels`: bucket i holds the chain of labels hashing to i,
        most recently added first. */
    var buckets: array<seq<Label>>
    /** `g_n_labels` (a 32-bit counter). */
    var nLabels: u32
    /** The abstract map: the label a lookup of each name finds. */
    ghost var labels: map<string, Label>

    ghost predicate Valid()
      reads this, buckets
    {
      buckets.Length == HTABLE_SIZE && Chained(buckets[..], labels)
    }

    /** An empty table, as the zero-initialised static array is. */
    constructor ()
      ensures Valid() && fresh(buckets)
      ensures labels == map[] && nLabels == 0
    {
      buckets := new seq<Label>[HTABLE_SIZE](_ => []);
      nLabels := 0;
      labels := map[];
      new;
      ChainedEmpty(buckets[..]);
    }

    /** `symtab_hash_init`: every bucket empty and the counter reset. */
    method Init()
      requires buckets.Length == HTABLE_SIZE
      modifies this, buckets
      ensures Valid() && buckets == old(buckets)
      ensures labels == map[] && nLabels == 0
      ensures forall i :: 0 <= i < HTABLE_SIZE ==> buckets[i] == []
    {
      nLabels := 0;
      var i := 0;
      while i < HTABLE_SIZE
        invariant 0 <= i <= HTABLE_SIZE
        invariant buckets == old(buckets) && nLabels == 0
        invariant forall j :: 0 <= j < i ==> buckets[j] == []
      {
        buckets[i] := [];
        i := i + 1;
      }
      labels := map[];
      ChainedEmpty(buckets[..]);
    }

    /** `symtab_lookup_label`: walk the chain of the key's bucket. */
    method Lookup(name: string) returns (r: Label?)
      requires Valid()
      ensures r == (if name in labels then labels[name] else null)
      ensures r != null ==> r.name == name && r in buckets[HashOf(name)]
      ensures r == null <==> forall k :: 0 <= k < |buckets[HashOf(name)]| ==> buckets[HashOf(name)][k].name != name
    {
      var h := Hash(name);
      var chain := buckets[h];
      var k := 0;
      while k < |chain| && chain[k].name != name
        invariant 0 <= k <= |chain|
        invariant Find(chain, name) == Find(chain[k..], name)
      {
        assert chain[k..][1..] == chain[k + 1..];
        k := k + 1;
      }
      r := if k < |chain| then chain[k] else null;
    }

    /** `symtab_add_label`: a fresh label prepended to its bucket, with no
        duplicate check, so an older label of the same name is shadowed.
        The `addrSet` argument is not stored: a new label is always
        unresolved. */
    method AddLabel(name: string, addrSet: bool, addr: u32, isTask: bool) returns (lbl: Label)
      requires Valid()
      modifies this, buckets
      ensures Valid() && buckets == old(buckets) && fresh(lbl)
      ensures lbl.name == name && lbl.addr == addr && lbl.isTask == isTask
      ensures !lbl.addrSet && lbl.backpatch == []
      ensures labels == old(labels)[name := lbl]
      ensures nLabels == (old(nLabels) + 1) % TWO_32
      ensures buckets[HashOf(name)] == [lbl] + old(buckets[HashOf(name)])
      ensures forall i :: 0 <= i < HTABLE_SIZE && i != HashOf(name) ==> buckets[i] == old(buckets[i])
    {
      var h := Hash(name);
      ghost var before := buckets[..];
      lbl := new Label(name, addr, isTask);
      ChainedPrepend(before, labels, lbl);
      buckets[h] := [lbl] + buckets[h];
      assert buckets[..] == before[h := [lbl] + before[h]];
      nLabels := (nLabels + 1) % TWO_32;
      labels := labels[name := lbl];
    }

    /** `symtab_add_task_label`: a task label at a known address. */
    method AddTaskLabel(name: string, addr: u32) returns (lbl: Label)
      requires Valid()
      modifies this, buckets
      ensures Valid() && buckets == old(buckets) && fresh(lbl)
      ensures lbl.name == name && lbl.addr == addr && lbl.isTask
      ensures !lbl.addrSet && lbl.backpatch == []
      ensures labels == old(labels)[name := lbl]
      ensures nLabels == (old(nLabels) + 1) % TWO_32
    {
      lbl := AddLabel(name, true, addr, true);
    }

    /** `symtab_add_forward_ref_task_label`: a task label at address 0 for a
        task used before it is declared. */
    method AddForwardRefTaskLabel(name: string) returns (lbl: Label)
      requires Valid()
      modifies this, buckets
      ensures Valid() && buckets == old(buckets) && fresh(lbl)
      ensures lbl.name == name && lbl.addr == 0 && lbl.isTask
      ensures !lbl.addrSet && lbl.backpatch == []
      ensures labels == old(labels)[name := lbl]
      ensures nLabels == (old(nLabels) + 1) % TWO_32
    {
      lbl := AddLabel(name, false, 0, true);
    }

    /** `symtab_add_jump_label`: a jump (non-task) label. */
    method AddJumpLabel(name: string, addr: u32) returns (lbl: Label)
      requires Valid()
      modifies this, buckets
      ensures Valid() && buckets == old(buckets) && fresh(lbl)
      ensures lbl.name == name && lbl.addr == addr && !lbl.isTask
      ensures !lbl.addrSet && lbl.backpatch == []
      ensures labels == old(labels)[name := lbl]
      ensures nLabels == (old(nLabels) + 1) % TWO_32
    {
      lbl := AddLabel(name, true, addr, false);
    }
  }
}
