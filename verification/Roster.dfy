/** Vectors of records that are looked up by their string id. */
module Roster {
  import opened Prelude

  datatype Entry<+T> = Entry(id: string, info: T)

  predicate Has<T(==)>(s: seq<Entry<T>>, id: string) {
    exists e | e in s :: e.id == id
  }

  predicate Distinct<T>(s: seq<Entry<T>>) {
    forall i, j | 0 <= i < j < |s| :: s[i].id != s[j].id
  }

  function Ids<T(==)>(s: seq<Entry<T>>): set<string> {
    set e | e in s :: e.id
  }

  /** Keeps, in order, the entries that do not carry the id. */
  function Without<T>(s: seq<Entry<T>>, id: string): seq<Entry<T>> {
    if s == [] then []
    else if s[0].id == id then Without(s[1..], id)
    else [s[0]] + Without(s[1..], id)
  }

  lemma {:induction false} WithoutIn<T(!new)>(s: seq<Entry<T>>, id: string)
    ensures forall e :: e in Without(s, id) <==> e in s && e.id != id
    ensures |Without(s, id)| <= |s|
  {
    if s != [] {
      WithoutIn(s[1..], id);
      assert s == [s[0]] + s[1..];
    }
  }

  /** Removing an id changes nothing exactly when no entry carries it. */
  lemma {:induction false} WithoutAbsent<T(!new)>(s: seq<Entry<T>>, id: string)
    ensures Without(s, id) == s <==> !Has(s, id)
    ensures |Without(s, id)| == |s| <==> !Has(s, id)
  {
    if s != [] {
      WithoutAbsent(s[1..], id);
      WithoutIn(s[1..], id);
      assert s == [s[0]] + s[1..];
      if s[0].id == id {
        assert Has(s, id);
      } else {
        assert Has(s, id) <==> Has(s[1..], id);
      }
    }
  }

  lemma {:induction false} WithoutHas<T(!new)>(s: seq<Entry<T>>, id: string)
    ensures forall other :: Has(Without(s, id), other) <==> Has(s, other) && other != id
    ensures Ids(Without(s, id)) == Ids(s) - {id}
  {
    WithoutIn(s, id);
  }

  lemma {:induction false} WithoutDistinct<T(!new)>(s: seq<Entry<T>>, id: string)
    requires Distinct(s)
    ensures Distinct(Without(s, id))
  {
    if s != [] {
      WithoutDistinct(s[1..], id);
      WithoutIn(s[1..], id);
      var rest := Without(s[1..], id);
      forall j | 0 <= j < |rest|
        ensures rest[j].id != s[0].id
      {
        assert rest[j] in s[1..];
      }
    }
  }

  /** In a list with distinct ids, removing a position is removing the id found there. */
  lemma {:induction false} WithoutAt<T(!new)>(s: seq<Entry<T>>, i: nat)
    requires i < |s| && Distinct(s)
    ensures Without(s, s[i].id) == s[..i] + s[i + 1..]
  {
    if i == 0 {
      WithoutAbsent(s[1..], s[0].id);
    } else {
      WithoutAt(s[1..], i - 1);
      assert s[1..][..i - 1] == s[1..i] && s[1..][i..] == s[i + 1..];
      assert s[..i] == [s[0]] + s[1..i];
    }
  }

  /** Replaces the first entry with the same id, or appends. */
  function Upsert<T>(s: seq<Entry<T>>, e: Entry<T>): seq<Entry<T>> {
    if s == [] then [e]
    else if s[0].id == e.id then [e] + s[1..]
    else [s[0]] + Upsert(s[1..], e)
  }

  lemma {:induction false} UpsertAt<T(!new)>(s: seq<Entry<T>>, e: Entry<T>, i: nat)
    requires i < |s| && s[i].id == e.id
    requires forall j | 0 <= j < i :: s[j].id != e.id
    ensures Upsert(s, e) == s[i := e]
  {
    if i > 0 {
      UpsertAt(s[1..], e, i - 1);
    }
  }

  lemma {:induction false} UpsertAbsent<T(!new)>(s: seq<Entry<T>>, e: Entry<T>)
    requires !Has(s, e.id)
    ensures Upsert(s, e) == s + [e]
  {
    if s != [] {
      assert s[0] in s;
      UpsertAbsent(s[1..], e);
    }
  }

  /** In a list with distinct ids, upserting replaces exactly the entry with that id. */
  lemma {:induction false} UpsertIn<T(!new)>(s: seq<Entry<T>>, e: Entry<T>)
    requires Distinct(s)
    ensures forall x :: x in Upsert(s, e) <==> x == e || (x in s && x.id != e.id)
    ensures Distinct(Upsert(s, e))
    ensures Ids(Upsert(s, e)) == Ids(s) + {e.id}
  {
    if Has(s, e.id) {
      var i := FirstIndex(s, e.id);
      UpsertAt(s, e, i);
      var r := s[i := e];
      forall x ensures x in r <==> x == e || (x in s && x.id != e.id) {
        if x in s && x.id != e.id {
          var j :| 0 <= j < |s| && s[j] == x;
          assert r[j] == x;
        }
        assert r[i] == e;
      }
    } else {
      UpsertAbsent(s, e);
      forall j | 0 <= j < |s| ensures s[j].id != e.id {
        assert s[j] in s;
      }
    }
  }

  /** The first position with the id. */
  function {:induction false} FirstIndex<T(==)>(s: seq<Entry<T>>, id: string): (i: nat)
    requires Has(s, id)
    ensures i < |s| && s[i].id == id
    ensures forall j | 0 <= j < i :: s[j].id != id
  {
    if s[0].id == id then 0
    else
      assert s == [s[0]] + s[1..];
      1 + FirstIndex(s[1..], id)
  }

  /** The position that `iter().position(..)` finds. */
  method IndexOf<T(==)>(s: seq<Entry<T>>, id: string) returns (found: Option<nat>)
    ensures found.None? <==> !Has(s, id)
    ensures found.Some? ==> found.value < |s| && s[found.value].id == id
    ensures found.Some? ==> forall j | 0 <= j < found.value :: s[j].id != id
  {
    var i := 0;
    while i < |s|
      invariant 0 <= i <= |s|
      invariant forall j | 0 <= j < i :: s[j].id != id
    {
      if s[i].id == id {
        assert s[i] in s;
        return Some(i);
      }
      i := i + 1;
    }
    return None;
  }
}
