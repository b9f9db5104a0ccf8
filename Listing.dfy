/** `orderBy: { createdAt: 'desc' }` over the rows a query selects: every
    selected row once, newest first. Rows with equal timestamps may come in
    any order, so the order is specified as a relation and the listing is
    one ordering that satisfies it. */
module Listing {

  /** `keys` lists every key of `created` exactly once, by non-increasing
      timestamp. */
  ghost predicate NewestFirstOf<K>(keys: seq<K>, created: map<K, int>) {
    && (forall i | 0 <= i < |keys| :: keys[i] in created)
    && (forall k | k in created :: k in keys)
    && (forall i, j | 0 <= i < j < |keys| :: keys[i] != keys[j])
    && (forall i, j | 0 <= i < j < |keys| :: created[keys[i]] >= created[keys[j]])
  }

  /** One newest row of a non-empty table. */
  ghost function Newest<K>(created: map<K, int>): (k: K)
    requires |created| > 0
    ensures k in created
    ensures forall j | j in created :: created[j] <= created[k]
    decreases |created|
  {
    var k0 :| k0 in created;
    var rest := created - {k0};
    assert rest.Keys == created.Keys - {k0};
    assert forall j | j in created && j != k0 :: j in rest && rest[j] == created[j];
    if |rest| == 0 then
      assert rest.Keys == {};
      k0
    else
      var m := Newest(rest);
      if created[m] < created[k0] then k0 else m
  }

  /** The keys of a table, newest first. */
  ghost function NewestFirst<K>(created: map<K, int>): (r: seq<K>)
    ensures NewestFirstOf(r, created)
    decreases |created|
  {
    if |created| == 0 then []
    else
      var k := Newest(created);
      var rest := created - {k};
      assert rest.Keys == created.Keys - {k};
      var tail := NewestFirst(rest);
      ConsListing(k, tail, created);
      [k] + tail
  }

  /** A newest row followed by a listing of the other rows is a listing. */
  lemma ConsListing<K>(k: K, tail: seq<K>, created: map<K, int>)
    requires k in created && forall j | j in created :: created[j] <= created[k]
    requires NewestFirstOf(tail, created - {k})
    ensures NewestFirstOf([k] + tail, created)
  {
    var rest := created - {k};
    var r := [k] + tail;
    forall i | 0 <= i < |tail| ensures tail[i] in created && tail[i] != k && rest[tail[i]] == created[tail[i]] {
      assert tail[i] in rest;
    }
    forall j | j in created ensures j in r {
      if j != k {
        assert j in rest;
        assert j in tail;
      }
    }
    forall i, j | 0 <= i < j < |r| ensures r[i] != r[j] && created[r[i]] >= created[r[j]] {
      assert r[j] == tail[j - 1];
      if i > 0 {
        assert r[i] == tail[i - 1];
      }
    }
  }

  /** The ordering is a total description of the listing up to ties: two
      listings of the same table hold the same keys, and the same number
      of them. */
  lemma NewestFirstSameKeys<K>(a: seq<K>, b: seq<K>, created: map<K, int>)
    requires NewestFirstOf(a, created) && NewestFirstOf(b, created)
    ensures forall k :: k in a <==> k in b
  {
  }

  /** With distinct timestamps the listing is unique. */
  lemma {:induction false} NewestFirstUnique<K>(a: seq<K>, b: seq<K>, created: map<K, int>)
    requires NewestFirstOf(a, created) && NewestFirstOf(b, created)
    requires forall k, j | k in created && j in created && k != j :: created[k] != created[j]
    ensures a == b
    decreases |a|
  {
    EmptyListing(a, created);
    EmptyListing(b, created);
    if a != [] && b != [] {
      HeadIsNewest(a, created);
      HeadIsNewest(b, created);
      var rest := created - {a[0]};
      TailListing(a, created);
      TailListing(b, created);
      NewestFirstUnique(a[1..], b[1..], rest);
    }
  }

  /** A listing is empty exactly when its table is. */
  lemma EmptyListing<K>(a: seq<K>, created: map<K, int>)
    requires NewestFirstOf(a, created)
    ensures a == [] <==> |created| == 0
  {
    if a != [] {
      assert a[0] in created;
    }
    if |created| > 0 {
      var k :| k in created;
      assert k in a;
    }
  }

  /** The head of a listing is at least as new as every row. */
  lemma HeadIsNewest<K>(a: seq<K>, created: map<K, int>)
    requires NewestFirstOf(a, created) && a != []
    requires forall k, j | k in created && j in created && k != j :: created[k] != created[j]
    ensures forall k | k in created && k != a[0] :: created[k] < created[a[0]]
  {
    forall k | k in created && k != a[0] ensures created[k] < created[a[0]] {
      var i :| 0 <= i < |a| && a[i] == k;
      assert created[a[0]] >= created[a[i]];
    }
  }

  /** Dropping the head of a listing lists the rest of the table. */
  lemma TailListing<K>(a: seq<K>, created: map<K, int>)
    requires NewestFirstOf(a, created) && a != []
    ensures NewestFirstOf(a[1..], created - {a[0]})
  {
    var rest := created - {a[0]};
    var tail := a[1..];
    forall k | k in rest ensures k in tail {
      var i :| 0 <= i < |a| && a[i] == k;
      assert tail[i - 1] == k;
    }
    forall i | 0 <= i < |tail| ensures tail[i] in rest {
      assert tail[i] == a[i + 1];
    }
    forall i, j | 0 <= i < j < |tail| ensures tail[i] != tail[j] && rest[tail[i]] >= rest[tail[j]] {
      assert tail[i] == a[i + 1] && tail[j] == a[j + 1];
    }
  }
}
