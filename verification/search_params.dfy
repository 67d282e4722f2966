/**
 * The query of a URL as the WHATWG URL Standard's URLSearchParams sees it
 * (section 6.2, "Interface URLSearchParams"): an ordered list of name-value
 * pairs, with the `set` and `delete` operations that `buildVariantUrls` in
 * app/api/scrape/route.ts applies to it in place.
 */
module SearchParams {
  import opened Wrappers

  /** One name-value pair of the list. */
  datatype Param = Param(name: string, value: string)

  predicate HasName(ps: seq<Param>, n: string) {
    exists k :: 0 <= k < |ps| && ps[k].name == n
  }

  /** The pairs named `n`, in list order. */
  function Named(ps: seq<Param>, n: string): (r: seq<Param>)
    ensures |r| <= |ps|
    ensures forall k :: 0 <= k < |r| ==> r[k].name == n
    ensures |r| == 0 <==> !HasName(ps, n)
  {
    if ps == [] then []
    else
      var rest := Named(ps[1..], n);
      assert HasName(ps[1..], n) ==> HasName(ps, n);
      assert HasName(ps, n) ==> ps[0].name == n || HasName(ps[1..], n) by {
        if HasName(ps, n) {
          var k :| 0 <= k < |ps| && ps[k].name == n;
          if k > 0 { assert ps[1..][k - 1] == ps[k]; }
        }
      }
      (if ps[0].name == n then [ps[0]] else []) + rest
  }

  /** `Named` keeps exactly the pairs of the list that carry the name `n`. */
  lemma {:induction false} NamedMembers(ps: seq<Param>, n: string)
    ensures forall p :: p in Named(ps, n) <==> p in ps && p.name == n
  {
    if ps != [] {
      NamedMembers(ps[1..], n);
      assert ps == [ps[0]] + ps[1..];
    }
  }

  /** `delete(n)`: the list with every pair named `n` removed. */
  function DeleteParam(ps: seq<Param>, n: string): (r: seq<Param>)
    ensures |r| <= |ps|
    ensures !HasName(r, n)
  {
    if ps == [] then []
    else
      var rest := DeleteParam(ps[1..], n);
      var r := (if ps[0].name == n then [] else [ps[0]]) + rest;
      assert forall k :: 0 <= k < |r| ==> r[k] == if ps[0].name == n then rest[k] else if k == 0 then ps[0] else rest[k - 1];
      r
  }

  /** The index of the first pair named `n`, if there is one. */
  function IndexOfName(ps: seq<Param>, n: string): (r: Option<nat>)
    ensures r.None? <==> !HasName(ps, n)
    ensures r.Some? ==> r.value < |ps| && ps[r.value].name == n && !HasName(ps[..r.value], n)
  {
    if ps == [] then None
    else if ps[0].name == n then Some(0)
    else
      match IndexOfName(ps[1..], n)
      case None =>
        assert !HasName(ps, n) by {
          forall k | 0 <= k < |ps| ensures ps[k].name != n {
            if k > 0 { assert ps[k] == ps[1..][k - 1]; }
          }
        }
        None
      case Some(i) =>
        assert ps[1..][i] == ps[i + 1];
        assert !HasName(ps[..i + 1], n) by {
          var pre := ps[..i + 1];
          forall k | 0 <= k < |pre| ensures pre[k].name != n {
            if k > 0 { assert pre[k] == ps[1..][..i][k - 1]; }
          }
        }
        Some(i + 1)
  }

  /** The first pair named `n` is at `i` when `ps[i]` is named `n` and no earlier pair is. */
  lemma {:induction false} IndexOfNameAt(ps: seq<Param>, n: string, i: nat)
    requires i < |ps| && ps[i].name == n
    requires forall k :: 0 <= k < i ==> ps[k].name != n
    ensures IndexOfName(ps, n) == Some(i)
  {
    if i > 0 {
      assert ps[1..][i - 1] == ps[i];
      assert forall k :: 0 <= k < i - 1 ==> ps[1..][k] == ps[k + 1];
      IndexOfNameAt(ps[1..], n, i - 1);
    }
  }

  /**
   * `set(n, v)`: if the list has pairs named `n`, the first one takes the value
   * `v` and the others are removed; otherwise `(n, v)` is appended.
   */
  function SetParam(ps: seq<Param>, n: string, v: string): seq<Param> {
    match IndexOfName(ps, n)
    case None => ps + [Param(n, v)]
    case Some(i) => ps[..i] + [Param(n, v)] + DeleteParam(ps[i + 1..], n)
  }

  // ---------------------------------------------------------------------
  // Facts about the list operations
  // ---------------------------------------------------------------------

  lemma {:induction false} DeleteParamConcat(a: seq<Param>, b: seq<Param>, n: string)
    ensures DeleteParam(a + b, n) == DeleteParam(a, n) + DeleteParam(b, n)
  {
    if a == [] {
      assert a + b == b;
    } else {
      assert (a + b)[1..] == a[1..] + b;
      DeleteParamConcat(a[1..], b, n);
    }
  }

  lemma {:induction false} NamedConcat(a: seq<Param>, b: seq<Param>, n: string)
    ensures Named(a + b, n) == Named(a, n) + Named(b, n)
  {
    if a == [] {
      assert a + b == b;
    } else {
      assert (a + b)[1..] == a[1..] + b;
      NamedConcat(a[1..], b, n);
    }
  }

  /** Deleting a name the list does not hold changes nothing. */
  lemma {:induction false} DeleteParamAbsent(ps: seq<Param>, n: string)
    requires !HasName(ps, n)
    ensures DeleteParam(ps, n) == ps
  {
    if ps != [] {
      assert !HasName(ps[1..], n) by {
        forall k | 0 <= k < |ps[1..]| ensures ps[1..][k].name != n {
          assert ps[1..][k] == ps[k + 1];
        }
      }
      assert ps[0].name != n;
      DeleteParamAbsent(ps[1..], n);
      assert ps == [ps[0]] + ps[1..];
    }
  }

  /** Deleting twice is deleting once. */
  lemma DeleteParamIdempotent(ps: seq<Param>, n: string)
    ensures DeleteParam(DeleteParam(ps, n), n) == DeleteParam(ps, n)
  {
    DeleteParamAbsent(DeleteParam(ps, n), n);
  }

  /** `delete(n)` leaves the pairs of every other name exactly as they were. */
  lemma {:induction false} DeleteParamKeepsOthers(ps: seq<Param>, n: string, m: string)
    requires m != n
    ensures Named(DeleteParam(ps, n), m) == Named(ps, m)
  {
    if ps != [] {
      DeleteParamKeepsOthers(ps[1..], n, m);
      var head := if ps[0].name == n then [] else [ps[0]];
      NamedConcat(head, DeleteParam(ps[1..], n), m);
      if ps[0].name != n {
        assert Named(head, m) == if ps[0].name == m then [ps[0]] else [] by {
          assert head[1..] == [];
        }
      }
    }
  }

  /** A name survives `delete(n)` exactly when it is another name the list holds. */
  lemma {:induction false} HasNameAfterDelete(ps: seq<Param>, n: string, m: string)
    ensures HasName(DeleteParam(ps, n), m) <==> m != n && HasName(ps, m)
  {
    if m != n {
      DeleteParamKeepsOthers(ps, n, m);
      assert |Named(DeleteParam(ps, n), m)| == |Named(ps, m)|;
    }
  }

  /** Two deletions commute. */
  lemma {:induction false} DeleteParamCommutes(ps: seq<Param>, n: string, m: string)
    ensures DeleteParam(DeleteParam(ps, n), m) == DeleteParam(DeleteParam(ps, m), n)
  {
    if ps != [] {
      DeleteParamCommutes(ps[1..], n, m);
      var p := ps[0];
      var dn := if p.name == n then [] else [p];
      var dm := if p.name == m then [] else [p];
      DeleteParamConcat(dn, DeleteParam(ps[1..], n), m);
      DeleteParamConcat(dm, DeleteParam(ps[1..], m), n);
      assert DeleteParam(dn, m) == DeleteParam(dm, n) by {
        if p.name != n { assert dn[1..] == []; }
        if p.name != m { assert dm[1..] == []; }
      }
    }
  }

  /** The first pair named `n` in `a + [p] + b`, when `a` holds none and `p` is named `n`, is `p`. */
  lemma IndexOfNameAfter(a: seq<Param>, p: Param, b: seq<Param>, n: string)
    requires !HasName(a, n) && p.name == n
    ensures IndexOfName(a + [p] + b, n) == Some(|a|)
  {
    var s := a + [p] + b;
    assert forall k :: 0 <= k < |a| ==> s[k] == a[k];
    IndexOfNameAt(s, n, |a|);
  }

  /** After `set(n, v)` there is exactly one pair named `n`, and it holds `v`. */
  lemma SetParamNamed(ps: seq<Param>, n: string, v: string)
    ensures Named(SetParam(ps, n, v), n) == [Param(n, v)]
  {
    var p := Param(n, v);
    assert Named([p], n) == [p] by { assert [p][1..] == []; }
    match IndexOfName(ps, n)
    case None =>
      NamedConcat(ps, [p], n);
    case Some(i) =>
      var a, b := ps[..i], DeleteParam(ps[i + 1..], n);
      NamedConcat(a + [p], b, n);
      NamedConcat(a, [p], n);
  }

  /** `set(n, v)` keeps every pair of another name, with its value and in its relative order. */
  lemma SetParamKeepsOthers(ps: seq<Param>, n: string, v: string)
    ensures DeleteParam(SetParam(ps, n, v), n) == DeleteParam(ps, n)
  {
    var p := Param(n, v);
    assert DeleteParam([p], n) == [] by { assert [p][1..] == []; }
    match IndexOfName(ps, n)
    case None =>
      DeleteParamConcat(ps, [p], n);
    case Some(i) =>
      var a, b := ps[..i], DeleteParam(ps[i + 1..], n);
      DeleteParamConcat(a + [p], b, n);
      DeleteParamConcat(a, [p], n);
      DeleteParamIdempotent(ps[i + 1..], n);
      assert ps == a + [ps[i]] + ps[i + 1..];
      DeleteParamConcat(a + [ps[i]], ps[i + 1..], n);
      DeleteParamConcat(a, [ps[i]], n);
      assert DeleteParam([ps[i]], n) == [] by { assert [ps[i]][1..] == []; }
  }

  /** `set(n, v)` puts its pair where the first pair named `n` was, or at the end when there was none. */
  lemma SetParamPosition(ps: seq<Param>, n: string, v: string)
    ensures IndexOfName(SetParam(ps, n, v), n) ==
            match IndexOfName(ps, n) case Some(i) => Some(i) case None => Some(|ps|)
  {
    var p := Param(n, v);
    match IndexOfName(ps, n)
    case None =>
      IndexOfNameAfter(ps, p, [], n);
      assert ps + [p] + [] == ps + [p];
    case Some(i) =>
      IndexOfNameAfter(ps[..i], p, DeleteParam(ps[i + 1..], n), n);
  }

  /** One step of `set`'s scan before the first pair named `n` is met. */
  lemma SetStepBeforeFirst(ps: seq<Param>, i: nat, n: string)
    requires i < |ps| && !HasName(ps[..i], n)
    ensures ps[..i + 1] == ps[..i] + [ps[i]]
    ensures ps[i].name == n ==> IndexOfName(ps, n) == Some(i) && DeleteParam(ps[i + 1..i + 1], n) == []
    ensures ps[i].name != n ==> !HasName(ps[..i + 1], n)
  {
    assert ps[..i + 1] == ps[..i] + [ps[i]];
    if ps[i].name == n {
      IndexOfNameAfter(ps[..i], ps[i], ps[i + 1..], n);
      assert ps == ps[..i] + [ps[i]] + ps[i + 1..];
      assert ps[i + 1..i + 1] == [];
    } else {
      var pre := ps[..i + 1];
      forall k | 0 <= k < |pre| ensures pre[k].name != n {
        if k < i { assert pre[k] == ps[..i][k]; }
      }
    }
  }

  /** One step of `set`'s scan after the first pair named `n`, at `at`: later pairs with that name are dropped. */
  lemma SetStepAfterFirst(ps: seq<Param>, at: nat, i: nat, n: string)
    requires at < i < |ps|
    ensures DeleteParam(ps[at + 1..i + 1], n) ==
            DeleteParam(ps[at + 1..i], n) + (if ps[i].name == n then [] else [ps[i]])
  {
    assert ps[at + 1..i + 1] == ps[at + 1..i] + [ps[i]];
    DeleteParamConcat(ps[at + 1..i], [ps[i]], n);
    assert DeleteParam([ps[i]], n) == (if ps[i].name == n then [] else [ps[i]]) by {
      assert [ps[i]][1..] == [];
    }
  }

  // ---------------------------------------------------------------------
  // The mutable list behind `url.searchParams`
  // ---------------------------------------------------------------------

  /** The `searchParams` object of a parsed URL: its list is updated in place. */
  class UrlSearchParams {
    var list: seq<Param>

    constructor (query: seq<Param>)
      ensures list == query
    {
      list := query;
    }

    /** `searchParams.set(name, value)`. */
    method Set(name: string, value: string)
      modifies this
      ensures list == SetParam(old(list), name, value)
    {
      var ps := list;
      var i := 0;
      while i < |ps| && ps[i].name != name
        invariant 0 <= i <= |ps| && !HasName(ps[..i], name)
      {
        SetStepBeforeFirst(ps, i, name);
        i := i + 1;
      }
      if i == |ps| {
        assert ps[..i] == ps;
        list := ps + [Param(name, value)];
      } else {
        SetStepBeforeFirst(ps, i, name);
        var rest: seq<Param> := [];
        var j := i + 1;
        while j < |ps|
          invariant i < j <= |ps|
          invariant rest == DeleteParam(ps[i + 1..j], name)
        {
          SetStepAfterFirst(ps, i, j, name);
          if ps[j].name != name {
            rest := rest + [ps[j]];
          }
          j := j + 1;
        }
        assert ps[i + 1..j] == ps[i + 1..];
        list := ps[..i] + [Param(name, value)] + rest;
      }
    }

    /** `searchParams.delete(name)`. */
    method Delete(name: string)
      modifies this
      ensures list == DeleteParam(old(list), name)
    {
      var ps := list;
      var out: seq<Param> := [];
      var i := 0;
      while i < |ps|
        invariant 0 <= i <= |ps|
        invariant out == DeleteParam(ps[..i], name)
      {
        assert ps[..i + 1] == ps[..i] + [ps[i]];
        DeleteParamConcat(ps[..i], [ps[i]], name);
        if ps[i].name != name {
          out := out + [ps[i]];
        }
        i := i + 1;
      }
      assert ps[..i] == ps;
      list := out;
    }
  }
}
