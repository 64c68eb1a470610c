/** flatten_requirements (sr_audit.py:56-63): the specimen-requirement tree
    the server returns, flattened in pre-order into (id, eventLabel)
    entries. */
module Requirements {
  import opened Wrappers

  /** One requirement; an absent `children` key is the empty list, and an
      absent `eventLabel` is None. */
  datatype Requirement = Requirement(id: int, eventLabel: Option<string>, children: seq<Requirement>)

  /** `{"id": r["id"], "eventLabel": r.get("eventLabel")}`. */
  datatype Entry = Entry(id: int, eventLabel: Option<string>)

  function EntryOf(r: Requirement): Entry
  {
    Entry(r.id, r.eventLabel)
  }

  /** The pre-order flattening of a list of sibling requirements. */
  function Flatten(reqs: seq<Requirement>): seq<Entry>
    decreases reqs
  {
    if reqs == [] then []
    else [EntryOf(reqs[0])] + Flatten(reqs[0].children) + Flatten(reqs[1..])
  }

  /** The number of requirements in a forest, every level counted. */
  function Count(reqs: seq<Requirement>): nat
    decreases reqs
  {
    if reqs == [] then 0 else 1 + Count(reqs[0].children) + Count(reqs[1..])
  }

  /** `x` is one of the requirements of the forest, at any depth. */
  ghost predicate Within(x: Requirement, reqs: seq<Requirement>)
    decreases reqs
  {
    exists i :: 0 <= i < |reqs| && (reqs[i] == x || Within(x, reqs[i].children))
  }

  /** One entry per requirement: the output is as long as the tree has
      nodes. */
  lemma {:induction false} FlattenLength(reqs: seq<Requirement>)
    ensures |Flatten(reqs)| == Count(reqs)
    decreases reqs
  {
    if reqs != [] {
      FlattenLength(reqs[0].children);
      FlattenLength(reqs[1..]);
    }
  }

  /** Siblings keep their order: flattening a concatenation is the
      concatenation of the flattenings. */
  lemma {:induction false} FlattenAppend(a: seq<Requirement>, b: seq<Requirement>)
    ensures Flatten(a + b) == Flatten(a) + Flatten(b)
    decreases a
  {
    if a == [] {
      assert a + b == b;
    } else {
      assert (a + b)[0] == a[0] && (a + b)[1..] == a[1..] + b;
      FlattenAppend(a[1..], b);
    }
  }

  /** Pre-order: the entry of the `k`th sibling comes right after the
      entries of the siblings before it and their subtrees, and right
      before the entries of its own subtree, which come before those of the
      siblings after it. */
  lemma Subtree(reqs: seq<Requirement>, k: nat)
    requires k < |reqs|
    ensures Flatten(reqs)
            == Flatten(reqs[..k]) + [EntryOf(reqs[k])] + Flatten(reqs[k].children) + Flatten(reqs[k + 1..])
    ensures |Flatten(reqs[..k])| == Count(reqs[..k])
    ensures Flatten(reqs)[Count(reqs[..k])] == EntryOf(reqs[k])
  {
    assert reqs == reqs[..k] + reqs[k..];
    FlattenAppend(reqs[..k], reqs[k..]);
    assert reqs[k..][1..] == reqs[k + 1..];
    FlattenLength(reqs[..k]);
  }

  /** Every entry is the (id, eventLabel) of a requirement of the tree, and
      every requirement of the tree has its entry. */
  lemma {:induction false} FlattenMembers(reqs: seq<Requirement>, e: Entry)
    ensures e in Flatten(reqs) <==> exists x :: Within(x, reqs) && EntryOf(x) == e
    decreases reqs
  {
    if reqs != [] {
      var h, rest := reqs[0], reqs[1..];
      FlattenMembers(h.children, e);
      FlattenMembers(rest, e);
      WithinCons(reqs);
    }
  }

  /** A requirement of a non-empty forest is its first tree's root, within
      that root's children, or within the remaining trees. */
  lemma WithinCons(reqs: seq<Requirement>)
    requires reqs != []
    ensures forall x :: Within(x, reqs) <==> x == reqs[0] || Within(x, reqs[0].children) || Within(x, reqs[1..])
  {
    forall x
      ensures Within(x, reqs) <==> x == reqs[0] || Within(x, reqs[0].children) || Within(x, reqs[1..])
    {
      if Within(x, reqs) {
        var i :| 0 <= i < |reqs| && (reqs[i] == x || Within(x, reqs[i].children));
        if i > 0 {
          assert reqs[1..][i - 1] == reqs[i];
        }
      }
      if Within(x, reqs[1..]) {
        var i :| 0 <= i < |reqs| - 1 && (reqs[1..][i] == x || Within(x, reqs[1..][i].children));
        assert reqs[i + 1] == reqs[1..][i];
      }
    }
  }

  /** One more sibling at the end. */
  lemma FlattenSnoc(reqs: seq<Requirement>, i: nat)
    requires i < |reqs|
    ensures Flatten(reqs[..i + 1]) == Flatten(reqs[..i]) + [EntryOf(reqs[i])] + Flatten(reqs[i].children)
  {
    assert reqs[..i + 1] == reqs[..i] + [reqs[i]];
    FlattenAppend(reqs[..i], [reqs[i]]);
    assert [reqs[i]][1..] == [];
  }

  /** flatten_requirements: each requirement's entry is appended, then, when
      it has children, the flattening of its children. */
  method FlattenRequirements(reqs: seq<Requirement>) returns (flat: seq<Entry>)
    ensures flat == Flatten(reqs)
    decreases reqs
  {
    flat := [];
    var i := 0;
    while i < |reqs|
      invariant 0 <= i <= |reqs|
      invariant flat == Flatten(reqs[..i])
    {
      var r := reqs[i];
      flat := flat + [EntryOf(r)];
      if r.children != [] {
        var sub := FlattenRequirements(r.children);
        flat := flat + sub;
      }
      FlattenSnoc(reqs, i);
      i := i + 1;
    }
    assert reqs[..i] == reqs;
  }
}
