/**
 * The grade calculator's category collection as a value: an ordered
 * sequence of categories whose weight and score are kept as the raw text
 * the user typed, with the operations that build the next collection
 * (filter for removal, map for editing) and the derived total weight.
 */
module Categories {
  import opened Wrappers
  import ParseFloat

  /** Addresses one category within the collection; the source stamps it with a clock reading. */
  type Id = nat

  datatype Category = Category(id: Id, name: string, weight: string, score: string)

  /** The three editable fields, named as the input elements' `name` attribute names them. */
  datatype Field = Name | Weight | Score

  /** The category added by the "Add Category" button and shown on first load. */
  function Blank(id: Id): Category {
    Category(id, "", "", "")
  }

  /** `parseFloat(s) || 0`: the parsed number, with NaN (and zero) read as 0. */
  function NumberOrZero(s: string): real {
    ParseFloat.Parse(s).GetOr(0.0)
  }

  /**
   * The total weight shown under the table: a left fold over the collection
   * adding each category's weight, text that is not a number counting as 0.
   */
  function TotalWeight(cs: seq<Category>): real {
    if cs == [] then 0.0 else TotalWeight(cs[..|cs| - 1]) + NumberOrZero(cs[|cs| - 1].weight)
  }

  predicate UniqueIds(cs: seq<Category>) {
    forall i, j | 0 <= i < j < |cs| :: cs[i].id != cs[j].id
  }

  predicate HasId(cs: seq<Category>, id: Id) {
    exists i | 0 <= i < |cs| :: cs[i].id == id
  }

  /** `categories.filter(cat => cat.id !== id)`. */
  function Removed(cs: seq<Category>, id: Id): (r: seq<Category>)
    ensures |r| <= |cs|
    ensures forall c | c in r :: c in cs && c.id != id
    ensures forall c | c in cs && c.id != id :: c in r
  {
    if cs == [] then []
    else if cs[0].id == id then Removed(cs[1..], id)
    else [cs[0]] + Removed(cs[1..], id)
  }

  function Get(c: Category, f: Field): string {
    match f
    case Name => c.name
    case Weight => c.weight
    case Score => c.score
  }

  /** `{ ...c, [f]: v }`: the category with field `f` set to `v`. */
  function WithField(c: Category, f: Field, v: string): (r: Category)
    ensures r.id == c.id && Get(r, f) == v
    ensures forall g: Field | g != f :: Get(r, g) == Get(c, g)
  {
    match f
    case Name => c.(name := v)
    case Weight => c.(weight := v)
    case Score => c.(score := v)
  }

  /** `categories.map(cat => cat.id === id ? { ...cat, [f]: v } : cat)`. */
  function Updated(cs: seq<Category>, id: Id, f: Field, v: string): (r: seq<Category>)
    ensures |r| == |cs|
  {
    if cs == [] then []
    else [if cs[0].id == id then WithField(cs[0], f, v) else cs[0]] + Updated(cs[1..], id, f, v)
  }

  // ---------------------------------------------------------------------
  // Total weight

  /** The total weight of two runs of categories is the sum of their totals. */
  lemma {:induction false} TotalWeightConcat(a: seq<Category>, b: seq<Category>)
    ensures TotalWeight(a + b) == TotalWeight(a) + TotalWeight(b)
  {
    if b == [] {
      assert a + b == a;
    } else {
      var b' := b[..|b| - 1];
      assert (a + b)[..|a + b| - 1] == a + b';
      TotalWeightConcat(a, b');
    }
  }

  /** Total weight as an ordinary sum from the front: the first weight plus the rest. */
  lemma TotalWeightCons(c: Category, cs: seq<Category>)
    ensures TotalWeight([c] + cs) == NumberOrZero(c.weight) + TotalWeight(cs)
  {
    TotalWeightConcat([c], cs);
    assert [c][..0] == [];
  }

  /** A category whose weight is not a number (the blank one, say) adds nothing to the total. */
  lemma TotalWeightIgnoresNonNumbers(cs: seq<Category>, c: Category)
    requires ParseFloat.Parse(c.weight).None?
    ensures TotalWeight(cs + [c]) == TotalWeight(cs)
  {
    assert (cs + [c])[..|cs|] == cs;
  }

  /** Appending a blank category leaves the total weight as it was. */
  lemma TotalWeightAddBlank(cs: seq<Category>, id: Id)
    ensures TotalWeight(cs + [Blank(id)]) == TotalWeight(cs)
  {
    ParseFloat.ParseEmpty();
    TotalWeightIgnoresNonNumbers(cs, Blank(id));
  }

  // ---------------------------------------------------------------------
  // Removal

  /** Filtering distributes over concatenation, so the order of the survivors is kept. */
  lemma {:induction false} RemovedConcat(a: seq<Category>, b: seq<Category>, id: Id)
    ensures Removed(a + b, id) == Removed(a, id) + Removed(b, id)
  {
    if a == [] {
      assert a + b == b;
    } else {
      assert (a + b)[0] == a[0] && (a + b)[1..] == a[1..] + b;
      RemovedConcat(a[1..], b, id);
    }
  }

  /** An id that no category carries removes nothing. */
  lemma {:induction false} RemovedAbsent(cs: seq<Category>, id: Id)
    requires !HasId(cs, id)
    ensures Removed(cs, id) == cs
  {
    if cs != [] {
      assert !HasId(cs[1..], id) by {
        forall i | 0 <= i < |cs[1..]| ensures cs[1..][i].id != id {
          assert cs[1..][i] == cs[i + 1];
        }
      }
      RemovedAbsent(cs[1..], id);
      assert cs == [cs[0]] + cs[1..];
    }
  }

  /** With unique ids, removing the id of the category at `k` drops exactly that category. */
  lemma RemovedUnique(cs: seq<Category>, k: nat)
    requires UniqueIds(cs) && k < |cs|
    ensures Removed(cs, cs[k].id) == cs[..k] + cs[k + 1..]
  {
    var id := cs[k].id;
    var pre, suf := cs[..k], cs[k + 1..];
    SplitAt(cs, k);
    RemovedConcat(pre, [cs[k]] + suf, id);
    RemovedConcat([cs[k]], suf, id);
    IdOnlyAt(cs, k);
    RemovedAbsent(pre, id);
    RemovedAbsent(suf, id);
    assert Removed([cs[k]], id) == [];
  }

  lemma SplitAt(cs: seq<Category>, k: nat)
    requires k < |cs|
    ensures cs == cs[..k] + ([cs[k]] + cs[k + 1..])
  {
    assert cs[k..] == [cs[k]] + cs[k + 1..];
    assert cs == cs[..k] + cs[k..];
  }

  /** With unique ids, the id of the category at `k` occurs neither before nor after it. */
  lemma IdOnlyAt(cs: seq<Category>, k: nat)
    requires UniqueIds(cs) && k < |cs|
    ensures !HasId(cs[..k], cs[k].id) && !HasId(cs[k + 1..], cs[k].id)
  {
    var pre, suf := cs[..k], cs[k + 1..];
    forall i | 0 <= i < |pre| ensures pre[i].id != cs[k].id {
      assert pre[i] == cs[i];
    }
    forall i | 0 <= i < |suf| ensures suf[i].id != cs[k].id {
      assert suf[i] == cs[k + 1 + i];
    }
  }

  /** With unique ids, a removal from a collection of two or more leaves at least one category. */
  lemma RemovedNonEmpty(cs: seq<Category>, id: Id)
    requires UniqueIds(cs) && |cs| > 1
    ensures |Removed(cs, id)| >= |cs| - 1 >= 1
  {
    if k :| 0 <= k < |cs| && cs[k].id == id {
      RemovedUnique(cs, k);
    } else {
      RemovedAbsent(cs, id);
    }
  }

  /** Removal keeps ids unique. */
  lemma {:induction false} RemovedKeepsUnique(cs: seq<Category>, id: Id)
    requires UniqueIds(cs)
    ensures UniqueIds(Removed(cs, id))
  {
    if cs != [] {
      RemovedKeepsUnique(cs[1..], id);
      if cs[0].id != id {
        var r := Removed(cs[1..], id);
        forall c | c in r ensures c.id != cs[0].id {
          var j :| 0 <= j < |cs[1..]| && cs[1..][j] == c;
          assert cs[j + 1] == c;
        }
      }
    }
  }

  /** With unique ids, removing the category at `k` lowers the total by that category's weight. */
  lemma TotalWeightRemoved(cs: seq<Category>, k: nat)
    requires UniqueIds(cs) && k < |cs|
    ensures TotalWeight(Removed(cs, cs[k].id)) == TotalWeight(cs) - NumberOrZero(cs[k].weight)
  {
    var pre, suf := cs[..k], cs[k + 1..];
    assert Removed(cs, cs[k].id) == pre + suf by {
      RemovedUnique(cs, k);
    }
    assert TotalWeight(cs) == TotalWeight(pre) + NumberOrZero(cs[k].weight) + TotalWeight(suf) by {
      SplitAt(cs, k);
      TotalWeightConcat(pre, [cs[k]] + suf);
      TotalWeightCons(cs[k], suf);
    }
    TotalWeightConcat(pre, suf);
  }

  // ---------------------------------------------------------------------
  // Editing

  /** Editing changes only the category with the given id, and only the named field. */
  lemma {:induction false} UpdatedAt(cs: seq<Category>, id: Id, f: Field, v: string, i: nat)
    requires i < |cs|
    ensures Updated(cs, id, f, v)[i] == if cs[i].id == id then WithField(cs[i], f, v) else cs[i]
  {
    if i > 0 {
      UpdatedAt(cs[1..], id, f, v, i - 1);
    }
  }

  /** Editing keeps every id in its place, hence keeps them unique. */
  lemma UpdatedKeepsIds(cs: seq<Category>, id: Id, f: Field, v: string)
    ensures forall i | 0 <= i < |cs| :: Updated(cs, id, f, v)[i].id == cs[i].id
    ensures UniqueIds(cs) ==> UniqueIds(Updated(cs, id, f, v))
  {
    forall i | 0 <= i < |cs| ensures Updated(cs, id, f, v)[i].id == cs[i].id {
      UpdatedAt(cs, id, f, v, i);
    }
  }

  /** Editing with an id no category carries changes nothing. */
  lemma UpdatedAbsent(cs: seq<Category>, id: Id, f: Field, v: string)
    requires !HasId(cs, id)
    ensures Updated(cs, id, f, v) == cs
  {
    forall i | 0 <= i < |cs| ensures Updated(cs, id, f, v)[i] == cs[i] {
      UpdatedAt(cs, id, f, v, i);
    }
  }

  /** A later edit of the same field of the same category overrides an earlier one. */
  lemma UpdatedTwice(cs: seq<Category>, id: Id, f: Field, v: string, w: string)
    ensures Updated(Updated(cs, id, f, v), id, f, w) == Updated(cs, id, f, w)
  {
    var once := Updated(cs, id, f, v);
    forall i | 0 <= i < |cs| ensures Updated(once, id, f, w)[i] == Updated(cs, id, f, w)[i] {
      UpdatedAt(cs, id, f, v, i);
      UpdatedAt(once, id, f, w, i);
      UpdatedAt(cs, id, f, w, i);
    }
  }

  /** Editing a name or a score leaves the total weight as it was. */
  lemma {:induction false} TotalWeightUpdatedOther(cs: seq<Category>, id: Id, f: Field, v: string)
    requires f != Weight
    ensures TotalWeight(Updated(cs, id, f, v)) == TotalWeight(cs)
  {
    if cs != [] {
      var c := cs[0];
      var c' := if c.id == id then WithField(c, f, v) else c;
      assert Get(c', Weight) == Get(c, Weight);
      assert Updated(cs, id, f, v) == [c'] + Updated(cs[1..], id, f, v);
      TotalWeightUpdatedOther(cs[1..], id, f, v);
      TotalWeightCons(c', Updated(cs[1..], id, f, v));
      TotalWeightCons(c, cs[1..]);
      assert cs == [c] + cs[1..];
    }
  }

  /** With unique ids, setting the weight of the category at `k` moves the total by the difference. */
  lemma TotalWeightUpdatedWeight(cs: seq<Category>, k: nat, v: string)
    requires UniqueIds(cs) && k < |cs|
    ensures TotalWeight(Updated(cs, cs[k].id, Weight, v))
         == TotalWeight(cs) - NumberOrZero(cs[k].weight) + NumberOrZero(v)
  {
    var id := cs[k].id;
    var r := Updated(cs, id, Weight, v);
    var c' := WithField(cs[k], Weight, v);
    assert r == r[..k] + ([r[k]] + r[k + 1..]);
    assert cs == cs[..k] + ([cs[k]] + cs[k + 1..]);
    UpdatedAt(cs, id, Weight, v, k);
    assert r[..k] == cs[..k] && r[k + 1..] == cs[k + 1..] by {
      forall i | 0 <= i < |cs| && i != k ensures r[i] == cs[i] {
        UpdatedAt(cs, id, Weight, v, i);
      }
    }
    TotalWeightConcat(r[..k], [r[k]] + r[k + 1..]);
    TotalWeightCons(r[k], r[k + 1..]);
    TotalWeightConcat(cs[..k], [cs[k]] + cs[k + 1..]);
    TotalWeightCons(cs[k], cs[k + 1..]);
  }

  // ---------------------------------------------------------------------
  // Ids stamped by the clock

  /**
   * The source stamps each new category with `Date.now()`. When the first
   * render and an "Add Category" click fall in the same millisecond `t`, the
   * collection holds two categories with id `t`; removal is then allowed
   * (there are two) and the filter drops both, leaving no category at all.
   */
  lemma SameMillisecondIdsEmptyTheCollection(t: Id)
    ensures var cs := [Blank(t)] + [Blank(t)]; |cs| > 1 && Removed(cs, t) == []
  {
    var cs := [Blank(t)] + [Blank(t)];
    assert cs[1..] == [Blank(t)];
    assert cs[1..][1..] == [];
  }
}
