/** The list maintenance of saveFavorite: the stored id list is used as a set,
    adding appends an absent id, removing filters every occurrence out. */
module Favorites {
  import opened Storage

  /** No id occurs twice. */
  predicate NoDup(f: seq<Id>) {
    forall i, j :: 0 <= i < j < |f| ==> f[i] != f[j]
  }

  /** `a` is `b` with some elements dropped, the rest kept in order. */
  predicate IsSubsequence(a: seq<Id>, b: seq<Id>)
    decreases |b|
  {
    if a == [] then true
    else if b == [] then false
    else if a[0] == b[0] then IsSubsequence(a[1..], b[1..])
    else IsSubsequence(a, b[1..])
  }

  /** The push branch: append `id` only when `includes` is false. */
  function Added(f: seq<Id>, id: Id): (r: seq<Id>)
    ensures id in r
    ensures forall x :: x in r <==> x in f || x == id
    ensures id in f ==> r == f
    ensures id !in f ==> r == f + [id]
  {
    if id in f then f else f + [id]
  }

  /** The filter branch: `favorites.filter(x => x !== id)`. */
  function Removed(f: seq<Id>, id: Id): (r: seq<Id>)
    ensures id !in r
    ensures forall x :: x in r <==> x in f && x != id
    ensures |r| <= |f|
    decreases |f|
  {
    if f == [] then []
    else (if f[0] != id then [f[0]] else []) + Removed(f[1..], id)
  }

  /** The list saveFavorite writes back: afterwards `id` is a member exactly when
      `isFavorite`, and every other id keeps its membership. */
  function Saved(f: seq<Id>, id: Id, isFavorite: bool): (r: seq<Id>)
    ensures forall x :: x in r <==> if x == id then isFavorite else x in f
  {
    if isFavorite then Added(f, id) else Removed(f, id)
  }

  /** Filtering is done element by element: it distributes over concatenation. */
  lemma {:induction false} RemovedAppend(a: seq<Id>, b: seq<Id>, id: Id)
    ensures Removed(a + b, id) == Removed(a, id) + Removed(b, id)
    decreases |a|
  {
    if a == [] {
      assert a + b == b;
    } else {
      assert (a + b)[1..] == a[1..] + b;
      RemovedAppend(a[1..], b, id);
    }
  }

  /** Removing an id that is not there leaves the list as it was. */
  lemma {:induction false} RemovedAbsent(f: seq<Id>, id: Id)
    requires id !in f
    ensures Removed(f, id) == f
    decreases |f|
  {
    if f != [] {
      RemovedAbsent(f[1..], id);
    }
  }

  /** Removing keeps the other ids in their relative order. */
  lemma {:induction false} RemovedIsSubsequence(f: seq<Id>, id: Id)
    ensures IsSubsequence(Removed(f, id), f)
    decreases |f|
  {
    if f != [] {
      RemovedIsSubsequence(f[1..], id);
      if f[0] == id {
        assert Removed(f, id) == Removed(f[1..], id);
        SubsequenceOfTail(Removed(f[1..], id), f);
      } else {
        var r := Removed(f, id);
        assert r == [f[0]] + Removed(f[1..], id);
        assert r[0] == f[0] && r[1..] == Removed(f[1..], id);
      }
    }
  }

  /** A subsequence of the tail is a subsequence of the whole list. */
  lemma {:induction false} SubsequenceOfTail(a: seq<Id>, b: seq<Id>)
    requires b != [] && IsSubsequence(a, b[1..])
    ensures IsSubsequence(a, b)
    decreases |a| + |b|, 1
  {
    if a != [] && a[0] == b[0] {
      SubsequenceDropHead(a, b[1..]);
    }
  }

  /** Dropping the head of a subsequence leaves a subsequence. */
  lemma {:induction false} SubsequenceDropHead(a: seq<Id>, b: seq<Id>)
    requires a != [] && IsSubsequence(a, b)
    ensures IsSubsequence(a[1..], b)
    decreases |a| + |b|, 0
  {
    if a[0] == b[0] {
      if a[1..] != [] {
        SubsequenceOfTail(a[1..], b);
      }
    } else {
      SubsequenceDropHead(a, b[1..]);
      if a[1..] != [] {
        SubsequenceOfTail(a[1..], b);
      }
    }
  }

  /** Removing drops exactly the occurrences of `id` and nothing else. */
  lemma {:induction false} RemovedMultiset(f: seq<Id>, id: Id)
    ensures multiset(Removed(f, id)) == multiset(f)[id := 0]
    decreases |f|
  {
    if f != [] {
      RemovedMultiset(f[1..], id);
      assert f == [f[0]] + f[1..];
    }
  }

  /** Saving never creates a duplicate: a list without duplicates stays without. */
  lemma {:induction false} SavedKeepsNoDup(f: seq<Id>, id: Id, isFavorite: bool)
    requires NoDup(f)
    ensures NoDup(Saved(f, id, isFavorite))
  {
    if !isFavorite {
      RemovedKeepsNoDup(f, id);
    }
  }

  lemma {:induction false} RemovedKeepsNoDup(f: seq<Id>, id: Id)
    requires NoDup(f)
    ensures NoDup(Removed(f, id))
    decreases |f|
  {
    if f != [] {
      var t := f[1..];
      assert NoDup(t) by {
        forall i, j | 0 <= i < j < |t| ensures t[i] != t[j] {
          assert t[i] == f[i + 1] && t[j] == f[j + 1];
        }
      }
      RemovedKeepsNoDup(t, id);
      assert f[0] !in t by {
        forall k | 0 <= k < |t| ensures t[k] != f[0] {
          assert t[k] == f[k + 1];
        }
      }
      var head: seq<Id> := if f[0] != id then [f[0]] else [];
      var r := head + Removed(t, id);
      forall i, j | 0 <= i < j < |r| ensures r[i] != r[j] {
        if i < |head| {
          assert r[i] == f[0] && r[j] in Removed(t, id);
        } else {
          assert r[i] == Removed(t, id)[i - |head|] && r[j] == Removed(t, id)[j - |head|];
        }
      }
    }
  }

  /** Saving with the same id twice, with opposite flags, leaves `id`'s membership as
      the last flag says and every other id's membership as it was. */
  lemma SavedTwice(f: seq<Id>, id: Id, last: bool, x: Id)
    ensures x in Saved(Saved(f, id, !last), id, last) <==> if x == id then last else x in f
  {
  }

  /** Un-favouriting and re-favouriting moves `id` to the end of the list. */
  lemma RemoveThenAddMovesToEnd(f: seq<Id>, id: Id)
    ensures Saved(Saved(f, id, false), id, true) == Removed(f, id) + [id]
  {
  }

  /** Favouriting and then un-favouriting an id that was absent restores the list. */
  lemma AddThenRemoveRestores(f: seq<Id>, id: Id)
    requires id !in f
    ensures Saved(Saved(f, id, true), id, false) == f
  {
    RemovedAppend(f, [id], id);
    RemovedAbsent(f, id);
  }
}
