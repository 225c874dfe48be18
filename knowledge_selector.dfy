/**
 * The knowledge-type picker (src/components/chat/KnowledgeSelector.tsx): one
 * button per type toggles it in an ordered selection, NONE clears it, and each
 * click reports the new selection to the parent, as null when it is empty.
 */
module KnowledgeSelection {
  import opened Wrappers
  import opened Sequences

  /** The types offered, one button each. */
  const Options: seq<string> := ["text", "file", "image"]

  predicate Distinct(s: seq<string>) {
    forall i, j :: 0 <= i < j < |s| ==> s[i] != s[j]
  }

  /** `selected.filter((s) => s !== type)`: every occurrence of t removed, the rest in order. */
  function Without(sel: seq<string>, t: string): (r: seq<string>)
    ensures t !in r
    ensures forall x :: x != t ==> (x in r <==> x in sel)
    ensures multiset(r) == multiset(sel)[t := 0]
    ensures t !in sel ==> r == sel
  {
    if sel == [] then []
    else
      assert sel == [sel[0]] + sel[1..];
      (if sel[0] == t then [] else [sel[0]]) + Without(sel[1..], t)
  }

  /**
   * Removing from two runs one after the other is removing from each: with
   * Without([x], t) == [x] for x != t, this pins down that the rest keeps its order.
   */
  lemma {:induction false} WithoutAppend(a: seq<string>, b: seq<string>, t: string)
    ensures Without(a + b, t) == Without(a, t) + Without(b, t)
    decreases |a|
  {
    if a == [] {
      assert a + b == b;
    } else {
      var x, rest := a[0], a[1..];
      var head := if x == t then [] else [x];
      calc {
        Without(a + b, t);
        { assert a + b == [x] + (rest + b); }
        Without([x] + (rest + b), t);
        { WithoutCons(x, rest + b, t); }
        head + Without(rest + b, t);
        { WithoutAppend(rest, b, t); }
        head + (Without(rest, t) + Without(b, t));
        { AppendAssociates(head, Without(rest, t), Without(b, t)); }
        (head + Without(rest, t)) + Without(b, t);
        { assert a == [x] + rest; WithoutCons(x, rest, t); }
        Without(a, t) + Without(b, t);
      }
    }
  }

  /** Filtering x followed by the rest: x, unless it is t, then the filtered rest. */
  lemma WithoutCons(x: string, rest: seq<string>, t: string)
    ensures Without([x] + rest, t) == (if x == t then [] else [x]) + Without(rest, t)
  {
    assert ([x] + rest)[0] == x;
    assert ([x] + rest)[1..] == rest;
  }

  /** The selection after a click on t: t removed if it was selected, appended at the end if not. */
  function Toggled(sel: seq<string>, t: string): (r: seq<string>)
    ensures t in r <==> t !in sel
    ensures forall x :: x != t ==> (x in r <==> x in sel)
    ensures t !in sel ==> r == sel + [t]
    ensures t in sel ==> multiset(r) == multiset(sel)[t := 0]
  {
    if t in sel then Without(sel, t) else sel + [t]
  }

  /** What onChange receives: null for the empty selection, the selection itself otherwise. */
  function Reported(sel: seq<string>): (r: Option<seq<string>>)
    ensures r.None? <==> sel == []
    ensures r.Some? ==> r.value == sel
  {
    if |sel| > 0 then Some(sel) else None
  }

  /** Removing keeps a duplicate-free selection duplicate-free. */
  lemma {:induction false} WithoutKeepsDistinct(sel: seq<string>, t: string)
    requires Distinct(sel)
    ensures Distinct(Without(sel, t))
    decreases |sel|
  {
    if sel != [] {
      DistinctParts(sel);
      WithoutKeepsDistinct(sel[1..], t);
      if sel[0] != t {
        DistinctCons(sel[0], Without(sel[1..], t));
      }
    }
  }

  /** The first element of a duplicate-free sequence occurs nowhere after it, and the rest is duplicate-free. */
  lemma DistinctParts(sel: seq<string>)
    requires sel != [] && Distinct(sel)
    ensures sel[0] !in sel[1..] && Distinct(sel[1..])
  {
    forall i, j | 0 <= i < j < |sel[1..]| ensures sel[1..][i] != sel[1..][j] {
      assert sel[1..][i] == sel[i + 1] && sel[1..][j] == sel[j + 1];
    }
    forall i | 0 <= i < |sel[1..]| ensures sel[1..][i] != sel[0] {
      assert sel[1..][i] == sel[i + 1];
    }
  }

  lemma DistinctCons(x: string, rest: seq<string>)
    requires Distinct(rest) && x !in rest
    ensures Distinct([x] + rest)
  {
    var r := [x] + rest;
    forall i, j | 0 <= i < j < |r| ensures r[i] != r[j] {
      if i == 0 {
        assert r[j] == rest[j - 1];
      } else {
        assert r[i] == rest[i - 1] && r[j] == rest[j - 1];
      }
    }
  }

  /** A click never creates a duplicate. */
  lemma ToggleKeepsDistinct(sel: seq<string>, t: string)
    requires Distinct(sel)
    ensures Distinct(Toggled(sel, t))
  {
    if t in sel {
      WithoutKeepsDistinct(sel, t);
    } else {
      var r := sel + [t];
      forall i, j | 0 <= i < j < |r| ensures r[i] != r[j] {
        if j == |sel| {
          assert r[i] == sel[i];
        } else {
          assert r[i] == sel[i] && r[j] == sel[j];
        }
      }
    }
  }

  /** Removing t from a selection that ends with the only t gives back what came before it. */
  lemma {:induction false} WithoutLast(sel: seq<string>, t: string)
    requires t !in sel
    ensures Without(sel + [t], t) == sel
    decreases |sel|
  {
    if sel == [] {
      assert [] + [t] == [t];
      assert [t][1..] == [];
    } else {
      assert (sel + [t])[0] == sel[0];
      assert (sel + [t])[1..] == sel[1..] + [t];
      WithoutLast(sel[1..], t);
      assert [sel[0]] + sel[1..] == sel;
    }
  }

  /** Clicking an unselected type twice gives back the selection exactly. */
  lemma ToggleTwiceUnselected(sel: seq<string>, t: string)
    requires t !in sel
    ensures Toggled(Toggled(sel, t), t) == sel
  {
    WithoutLast(sel, t);
  }

  /**
   * Clicking a selected type twice gives back the same types, each once, but the
   * type moves to the end: the order is that of the selection without it, then it.
   */
  lemma ToggleTwiceSelected(sel: seq<string>, t: string)
    requires Distinct(sel) && t in sel
    ensures Toggled(Toggled(sel, t), t) == Without(sel, t) + [t]
    ensures multiset(Toggled(Toggled(sel, t), t)) == multiset(sel)
  {
    var once := Without(sel, t);
    OccursOnce(sel, t);
    assert multiset(once + [t]) == multiset(once) + multiset{t};
    RestoreCount(multiset(sel), t);
  }

  /** In a duplicate-free selection a selected type occurs exactly once. */
  lemma OccursOnce(sel: seq<string>, t: string)
    requires Distinct(sel) && t in sel
    ensures multiset(sel)[t] == 1
  {
    var k :| 0 <= k < |sel| && sel[k] == t;
    var before, after := sel[..k], sel[k + 1..];
    forall i | 0 <= i < |before| ensures before[i] != t { assert before[i] == sel[i]; }
    forall i | 0 <= i < |after| ensures after[i] != t { assert after[i] == sel[k + 1 + i]; }
    AbsentCount(before, t);
    AbsentCount(after, t);
    PickOut(sel, k);
    MultisetAround(before, t, after);
  }

  lemma MultisetAround(before: seq<string>, t: string, after: seq<string>)
    ensures multiset(before + [t] + after)[t] == multiset(before)[t] + 1 + multiset(after)[t]
  {
    assert multiset(before + [t] + after) == multiset(before) + multiset{t} + multiset(after);
  }

  lemma PickOut(sel: seq<string>, k: nat)
    requires k < |sel|
    ensures sel == sel[..k] + [sel[k]] + sel[k + 1..]
  {
  }

  lemma AbsentCount(s: seq<string>, t: string)
    requires forall i :: 0 <= i < |s| ==> s[i] != t
    ensures multiset(s)[t] == 0
  {
    assert t !in s;
    assert t !in multiset(s);
  }

  lemma RestoreCount(m: multiset<string>, t: string)
    requires m[t] == 1
    ensures m[t := 0] + multiset{t} == m
  {
  }

  /** The selection after clicking each of `clicks` in turn. */
  function ToggledAll(sel: seq<string>, clicks: seq<string>): seq<string>
    decreases |clicks|
  {
    if clicks == [] then sel else ToggledAll(Toggled(sel, clicks[0]), clicks[1..])
  }

  /** From the empty selection, clicking the buttons only ever selects offered types, each at most once. */
  lemma {:induction false} ClicksKeepSelectionDistinct(sel: seq<string>, clicks: seq<string>)
    requires Distinct(sel) && (forall x :: x in sel ==> x in Options)
    requires forall k :: 0 <= k < |clicks| ==> clicks[k] in Options
    ensures Distinct(ToggledAll(sel, clicks))
    ensures forall x :: x in ToggledAll(sel, clicks) ==> x in Options
    decreases |clicks|
  {
    if clicks != [] {
      ToggleKeepsDistinct(sel, clicks[0]);
      ClicksKeepSelectionDistinct(Toggled(sel, clicks[0]), clicks[1..]);
    }
  }

  /** The selector's state: the selection, and the values passed to onChange, in order. */
  class Selector {
    var selected: seq<string>
    var reports: seq<Option<seq<string>>>

    ghost predicate Valid()
      reads this
    {
      Distinct(selected)
    }

    constructor()
      ensures selected == [] && reports == [] && Valid()
    {
      selected := [];
      reports := [];
    }

    /** toggle: the selection becomes Toggled and the new selection is reported. */
    method Toggle(t: string)
      requires Valid()
      modifies this
      ensures Valid()
      ensures selected == Toggled(old(selected), t)
      ensures reports == old(reports) + [Reported(selected)]
    {
      var next: seq<string>;
      if t in selected {
        next := Without(selected, t);
      } else {
        next := selected + [t];
      }
      ToggleKeepsDistinct(selected, t);
      selected := next;
      reports := reports + [if |next| > 0 then Some(next) else None];
    }

    /** NONE: the selection is cleared and null is reported. */
    method SelectNone()
      modifies this
      ensures Valid()
      ensures selected == [] && reports == old(reports) + [None]
    {
      selected := [];
      reports := reports + [None];
    }
  }
}
