/** The selection store: the ordered list of products the user has picked,
    mutated by clicking a product card and by the remove buttons of the
    selected-products panel. */
module Selection {

  import opened Options
  import opened Seqs
  import opened Catalog

  /** Some entry of `sel` carries `id`. */
  predicate HasId(sel: seq<Product>, id: string)
  {
    exists p :: p in sel && p.id == id
  }

  /** No two entries of `sel` share an id. */
  predicate UniqueIds(sel: seq<Product>)
  {
    forall i, j :: 0 <= i < j < |sel| ==> sel[i].id != sel[j].id
  }

  /** `selectedProducts.find(p => p.id === id)`: the first entry with that id. */
  function Find(sel: seq<Product>, id: string): (r: Option<Product>)
    ensures r.Some? <==> HasId(sel, id)
    ensures r.Some? ==> exists k :: 0 <= k < |sel| && sel[k] == r.value && r.value.id == id
                                    && forall j :: 0 <= j < k ==> sel[j].id != id
  {
    if sel == [] then None
    else if sel[0].id == id then Some(sel[0])
    else
      var r := Find(sel[1..], id);
      assert sel == [sel[0]] + sel[1..];
      if r.Some? then
        var k :| 0 <= k < |sel[1..]| && sel[1..][k] == r.value && r.value.id == id
                 && forall j :: 0 <= j < k ==> sel[1..][j].id != id;
        assert sel[k + 1] == r.value;
        assert forall j :: 0 <= j < k + 1 ==> sel[j].id != id by {
          forall j | 0 <= j < k + 1 ensures sel[j].id != id {
            if j > 0 {
              assert sel[j] == sel[1..][j - 1];
            }
          }
        }
        r
      else
        r
  }

  /** The filter callback of the unselect branch: keep entries with another id. */
  function OtherId(id: string): Product -> bool
  {
    (p: Product) => p.id != id
  }

  /** `selectedProducts.filter(p => p.id !== id)`: every entry with `id` is
      dropped, every other entry kept in its relative order. */
  function WithoutId(sel: seq<Product>, id: string): (r: seq<Product>)
    ensures IsSubsequence(r, sel)
    ensures !HasId(r, id)
    ensures forall p :: multiset(r)[p] == if p.id == id then 0 else multiset(sel)[p]
    ensures forall q :: HasId(r, q) <==> q != id && HasId(sel, q)
    ensures !HasId(sel, id) <==> r == sel
    ensures HasId(sel, id) ==> |r| < |sel|
  {
    Keep(sel, OtherId(id))
  }

  /** The card click: unselect every entry with the product's id if there is
      one, otherwise append the product at the end. */
  function Toggle(sel: seq<Product>, p: Product): (r: seq<Product>)
    ensures !HasId(sel, p.id) ==> |r| == |sel| + 1 && r[..|sel|] == sel && r[|sel|] == p
    ensures HasId(sel, p.id) ==> |r| < |sel| && IsSubsequence(r, sel) && !HasId(r, p.id)
    ensures HasId(sel, p.id) ==> forall q :: multiset(r)[q] == if q.id == p.id then 0 else multiset(sel)[q]
    ensures forall id :: HasId(r, id) <==> (if id == p.id then !HasId(sel, id) else HasId(sel, id))
  {
    if Find(sel, p.id).Some? then
      WithoutId(sel, p.id)
    else
      assert forall id :: HasId(sel + [p], id) <==> id == p.id || HasId(sel, id) by {
        forall id ensures HasId(sel + [p], id) <==> id == p.id || HasId(sel, id) {
          if id == p.id {
            assert p in sel + [p];
          }
        }
      }
      sel + [p]
  }

  /** Clicking an unselected card twice restores the selection. */
  lemma ToggleTwiceRestores(sel: seq<Product>, p: Product)
    requires !HasId(sel, p.id)
    ensures Toggle(Toggle(sel, p), p) == sel
  {
    assert p in sel + [p];
    KeepConcat(sel, [p], OtherId(p.id));
    assert Keep([p], OtherId(p.id)) == [];
  }

  /** A list headed by `x` has distinct ids exactly when its tail does and
      does not mention `x`'s id. */
  lemma UniqueIdsCons(x: Product, s: seq<Product>)
    ensures UniqueIds([x] + s) <==> !HasId(s, x.id) && UniqueIds(s)
  {
    var r := [x] + s;
    if UniqueIds(r) {
      forall q | q in s ensures q.id != x.id {
        var k :| 0 <= k < |s| && s[k] == q;
        assert r[0] == x && r[k + 1] == q;
        assert r[0].id != r[k + 1].id;
      }
      forall i, j | 0 <= i < j < |s| ensures s[i].id != s[j].id {
        assert r[i + 1] == s[i] && r[j + 1] == s[j];
      }
    }
    if !HasId(s, x.id) && UniqueIds(s) {
      forall i, j | 0 <= i < j < |r| ensures r[i].id != r[j].id {
        assert r[j] == s[j - 1] && r[j] in s;
        if i > 0 {
          assert r[i] == s[i - 1];
        }
      }
    }
  }

  /** Filtering a list of distinct ids keeps the ids distinct. */
  lemma {:induction false} KeepKeepsUniqueIds(sel: seq<Product>, keep: Product -> bool)
    requires UniqueIds(sel)
    ensures UniqueIds(Keep(sel, keep))
  {
    if sel != [] {
      assert sel == [sel[0]] + sel[1..];
      UniqueIdsCons(sel[0], sel[1..]);
      KeepKeepsUniqueIds(sel[1..], keep);
      var rest := Keep(sel[1..], keep);
      if keep(sel[0]) {
        UniqueIdsCons(sel[0], rest);
      }
    }
  }

  /** A toggle keeps the ids of the selection pairwise distinct. */
  lemma ToggleKeepsUniqueIds(sel: seq<Product>, p: Product)
    requires UniqueIds(sel)
    ensures UniqueIds(Toggle(sel, p))
  {
    if HasId(sel, p.id) {
      KeepKeepsUniqueIds(sel, OtherId(p.id));
    } else {
      var r := sel + [p];
      forall i | 0 <= i < |sel|
        ensures r[i].id != p.id
      {
        assert sel[i] in sel;
      }
    }
  }

  /** The start position `splice(start, ...)` uses on a list of length `len`:
      a negative start counts back from the end, and both ends are clamped. */
  function SpliceStart(len: nat, start: int): (k: nat)
    ensures k <= len
    ensures 0 <= start <= len ==> k == start
    ensures start < 0 && len + start >= 0 ==> k == len + start
    ensures start > len ==> k == len
    ensures start < 0 && len + start < 0 ==> k == 0
  {
    if start < 0 then
      if len + start < 0 then 0 else len + start
    else if start > len then len
    else start
  }

  /** `r` is `sel` with exactly the entry at position `k` taken out. */
  predicate RemovedAt(sel: seq<Product>, r: seq<Product>, k: int)
  {
    && 0 <= k < |sel|
    && |r| == |sel| - 1
    && (forall j :: 0 <= j < k ==> r[j] == sel[j])
    && (forall j :: k <= j < |r| ==> r[j] == sel[j + 1])
  }

  /** `selectedProducts.splice(idx, 1)`, as the remove button runs it: a
      position past the end removes nothing, a negative one counts back from
      the end. */
  function RemoveAt(sel: seq<Product>, idx: int): (r: seq<Product>)
    ensures 0 <= idx < |sel| ==> RemovedAt(sel, r, idx)
    ensures -|sel| <= idx < 0 ==> RemovedAt(sel, r, |sel| + idx)
    ensures idx < -|sel| && sel != [] ==> RemovedAt(sel, r, 0)
    ensures idx >= |sel| || sel == [] ==> r == sel
  {
    var k := SpliceStart(|sel|, idx);
    if k < |sel| then sel[..k] + sel[k + 1..] else sel
  }

  /** Removing at a valid position drops exactly that entry from the multiset of entries. */
  lemma RemoveAtMultiset(sel: seq<Product>, idx: int)
    requires 0 <= idx < |sel|
    ensures multiset(RemoveAt(sel, idx)) + multiset{sel[idx]} == multiset(sel)
  {
    assert RemoveAt(sel, idx) == sel[..idx] + sel[idx + 1..];
    assert sel == sel[..idx] + [sel[idx]] + sel[idx + 1..];
  }

  /** Removal keeps the ids of the selection pairwise distinct. */
  lemma RemoveAtKeepsUniqueIds(sel: seq<Product>, idx: int)
    requires UniqueIds(sel)
    ensures UniqueIds(RemoveAt(sel, idx))
  {
    var k := SpliceStart(|sel|, idx);
    if k < |sel| {
      var r := RemoveAt(sel, idx);
      forall i, j | 0 <= i < j < |r|
        ensures r[i].id != r[j].id
      {
        var i' := if i < k then i else i + 1;
        var j' := if j < k then j else j + 1;
        assert r[i] == sel[i'] && r[j] == sel[j'];
      }
    }
  }

  /** The remove button of the entry a card click just appended undoes the click. */
  lemma RemoveLastUndoesToggle(sel: seq<Product>, p: Product)
    requires !HasId(sel, p.id)
    ensures RemoveAt(Toggle(sel, p), |sel|) == sel
  {
  }

  /** On a selection with distinct ids, unselecting the id of the entry at
      `idx` takes out exactly that entry. */
  lemma WithoutUniqueId(sel: seq<Product>, idx: int)
    requires UniqueIds(sel)
    requires 0 <= idx < |sel|
    ensures WithoutId(sel, sel[idx].id) == sel[..idx] + sel[idx + 1..]
  {
    var keep := OtherId(sel[idx].id);
    var before, after := sel[..idx], sel[idx + 1..];
    assert sel == before + ([sel[idx]] + after);
    KeepConcat(before, [sel[idx]] + after, keep);
    KeepConcat([sel[idx]], after, keep);
    forall j | 0 <= j < |before| ensures keep(before[j]) {
      assert before[j] == sel[j];
    }
    KeepAll(before, keep);
    forall j | 0 <= j < |after| ensures keep(after[j]) {
      assert after[j] == sel[idx + 1 + j];
    }
    KeepAll(after, keep);
    assert !keep(sel[idx]);
    assert Keep([sel[idx]], keep) == [];
  }

  /** On a selection with distinct ids, clicking the card of the entry at
      `idx` does what that entry's remove button does. */
  lemma ToggleSelectedIsRemoveAt(sel: seq<Product>, idx: int, p: Product)
    requires UniqueIds(sel)
    requires 0 <= idx < |sel| && p.id == sel[idx].id
    ensures Toggle(sel, p) == RemoveAt(sel, idx)
  {
    assert sel[idx] in sel;
    WithoutUniqueId(sel, idx);
  }
}
