/**
 * `all_recipients` from the e-mail utilities: every address of the From,
 * To, Cc and Bcc headers, without empty ones and without repeats, in
 * ascending order, joined by `", "`.
 */
module EmailRecipients {
  import opened Strings
  import opened Mail

  const RecipientHeaders: seq<string> := ["From", "To", "Cc", "Bcc"]

  /** The `(name, addr)` pairs of header `h`; an absent header contributes no address. */
  function HeaderPairs(m: Message, h: string): seq<(string, string)> {
    if h in m.addresses then m.addresses[h] else []
  }

  /** The pairs of the first `k` recipient headers, in header order. */
  function Fields(m: Message, k: nat): seq<(string, string)>
    requires k <= |RecipientHeaders|
  {
    if k == 0 then [] else Fields(m, k - 1) + HeaderPairs(m, RecipientHeaders[k - 1])
  }

  /** The non-empty addresses of `fields`, in order. */
  function Addresses(fields: seq<(string, string)>): (r: seq<string>)
    ensures forall x :: x in r ==> x != []
  {
    if fields == [] then []
    else Addresses(fields[..|fields| - 1]) + (if fields[|fields| - 1].1 != [] then [fields[|fields| - 1].1] else [])
  }

  /** An address is listed exactly when some pair carries it and it is non-empty. */
  lemma {:induction false} AddressesMembers(fields: seq<(string, string)>, x: string)
    ensures x in Addresses(fields) <==> x != [] && exists i :: 0 <= i < |fields| && fields[i].1 == x
    decreases |fields|
  {
    if fields != [] {
      var init := fields[..|fields| - 1];
      AddressesMembers(init, x);
      if x != [] && exists i :: 0 <= i < |fields| && fields[i].1 == x {
        var i :| 0 <= i < |fields| && fields[i].1 == x;
        if i < |init| {
          assert init[i] == fields[i];
        }
      }
      if exists i :: 0 <= i < |init| && init[i].1 == x {
        var i :| 0 <= i < |init| && init[i].1 == x;
        assert fields[i] == init[i];
      }
    }
  }

  /** Strictly ascending in Python's string order: sorted, and no element twice. */
  predicate StrictlySorted(xs: seq<string>) {
    forall i, j :: 0 <= i < j < |xs| ==> Below(xs[i], xs[j])
  }

  /** Puts `a` into its place in a strictly sorted list, unless it is there already. */
  function InsertSorted(xs: seq<string>, a: string): seq<string> {
    if xs == [] then [a]
    else if xs[0] == a then xs
    else if Below(a, xs[0]) then [a] + xs
    else [xs[0]] + InsertSorted(xs[1..], a)
  }

  lemma {:induction false} InsertSortedKeeps(xs: seq<string>, a: string)
    requires StrictlySorted(xs)
    ensures StrictlySorted(InsertSorted(xs, a))
    ensures forall x :: x in InsertSorted(xs, a) <==> x in xs || x == a
    decreases |xs|
  {
    if xs != [] && xs[0] != a {
      if Below(a, xs[0]) {
        forall j | 0 < j < |xs|
          ensures Below(a, xs[j])
        {
          BelowTransitive(a, xs[0], xs[j]);
        }
        assert forall j :: 0 < j < |[a] + xs| ==> ([a] + xs)[j] == xs[j - 1];
      } else {
        BelowTotal(a, xs[0]);
        var rest := InsertSorted(xs[1..], a);
        InsertSortedKeeps(xs[1..], a);
        assert forall x :: x in xs[1..] ==> Below(xs[0], x);
        var r := [xs[0]] + rest;
        forall i, j | 0 <= i < j < |r|
          ensures Below(r[i], r[j])
        {
          assert r[j] == rest[j - 1] && r[j] in rest;
          if i > 0 {
            assert r[i] == rest[i - 1];
          }
        }
        assert forall x :: x in xs <==> x == xs[0] || x in xs[1..];
      }
    }
  }

  /** `sorted(set(xs))`. */
  function SortedSet(xs: seq<string>): seq<string> {
    if xs == [] then [] else InsertSorted(SortedSet(xs[..|xs| - 1]), xs[|xs| - 1])
  }

  /** `SortedSet` is strictly ascending and holds exactly the elements of its input. */
  lemma {:induction false} SortedSetSpec(xs: seq<string>)
    ensures StrictlySorted(SortedSet(xs))
    ensures forall x :: x in SortedSet(xs) <==> x in xs
    decreases |xs|
  {
    if xs != [] {
      var init := xs[..|xs| - 1];
      SortedSetSpec(init);
      InsertSortedKeeps(SortedSet(init), xs[|xs| - 1]);
      assert xs == init + [xs[|xs| - 1]];
    }
  }

  /** Two strictly sorted lists with the same elements are equal: the order `sorted` picks is the only one. */
  lemma {:induction false} StrictlySortedUnique(a: seq<string>, b: seq<string>)
    requires StrictlySorted(a) && StrictlySorted(b)
    requires forall x :: x in a <==> x in b
    ensures a == b
    decreases |a|
  {
    SameElementsEmpty(a, b);
    if a != [] {
      assert a[0] in b && b[0] in a;
      if a[0] != b[0] {
        assert Below(a[0], b[0]);
        assert Below(b[0], a[0]);
        BelowAsymmetric(a[0], b[0]);
      }
      forall x | x in a[1..]
        ensures x in b[1..]
      {
        BelowIrreflexive(a[0]);
        assert x in b && x != b[0];
      }
      forall x | x in b[1..]
        ensures x in a[1..]
      {
        BelowIrreflexive(b[0]);
        assert x in a && x != a[0];
      }
      StrictlySortedUnique(a[1..], b[1..]);
      assert a == [a[0]] + a[1..] && b == [b[0]] + b[1..];
    }
  }

  lemma SameElementsEmpty(a: seq<string>, b: seq<string>)
    requires forall x :: x in a <==> x in b
    ensures a == [] <==> b == []
  {
    if a != [] {
      assert a[0] in a;
    }
    if b != [] {
      assert b[0] in b;
    }
  }

  /** The pairs of all four recipient headers. */
  function AllFields(m: Message): seq<(string, string)> {
    Fields(m, |RecipientHeaders|)
  }

  /** The recipient addresses of `m`, sorted and without repeats. */
  function RecipientList(m: Message): seq<string> {
    SortedSet(Addresses(AllFields(m)))
  }

  /** The list is strictly ascending and holds exactly the non-empty addresses of the four headers. */
  lemma RecipientListSpec(m: Message, x: string)
    ensures StrictlySorted(RecipientList(m))
    ensures x in RecipientList(m) <==>
      x != [] && exists i :: 0 <= i < |AllFields(m)| && AllFields(m)[i].1 == x
  {
    SortedSetSpec(Addresses(AllFields(m)));
    AddressesMembers(AllFields(m), x);
  }

  /** `all_recipients`: gathers the pairs header by header, then joins the sorted distinct addresses. */
  method AllRecipients(m: Message) returns (r: string)
    ensures r == JoinWith(", ", RecipientList(m))
    ensures |r| == 0 <==> forall i :: 0 <= i < |AllFields(m)| ==> AllFields(m)[i].1 == []
  {
    var fields: seq<(string, string)> := [];
    for k := 0 to |RecipientHeaders|
      invariant fields == Fields(m, k)
    {
      fields := fields + HeaderPairs(m, RecipientHeaders[k]);
    }
    var list := SortedSet(Addresses(fields));
    r := JoinWith(", ", list);
    JoinWithEmpty(", ", list);
    SortedSetSpec(Addresses(fields));
    if list != [] {
      assert list[0] in Addresses(fields);
      AddressesMembers(fields, list[0]);
    } else {
      forall i | 0 <= i < |fields|
        ensures fields[i].1 == []
      {
        AddressesMembers(fields, fields[i].1);
      }
    }
  }
}
