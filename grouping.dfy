/** Grouping a list into a map from a key to the values with that key, each group in the
    order of the list: the shape of `groupByImplFilename`, `groupByPackage` and of the file
    lists `crawlAPI` builds. The list is given as (key, value) pairs. */
module Grouping {
  import opened Types

  /** The map the loops build: each pair appends its value to its key's group (a missing group
      is Go's nil slice, so the first append creates it). */
  function Group<T>(ps: seq<(string, T)>): map<string, seq<T>>
    decreases |ps|
  {
    if ps == [] then map[]
    else
      var g := Group(ps[..|ps| - 1]);
      var k := ps[|ps| - 1].0;
      g[k := (if k in g then g[k] else []) + [ps[|ps| - 1].1]]
  }

  /** The reference definition: the values filed under `k`, in list order. */
  function Members<T>(ps: seq<(string, T)>, k: string): seq<T>
    decreases |ps|
  {
    if ps == [] then []
    else Members(ps[..|ps| - 1], k) + (if ps[|ps| - 1].0 == k then [ps[|ps| - 1].1] else [])
  }

  /** The distinct keys, in order of first appearance. */
  function Keys<T>(ps: seq<(string, T)>): seq<string>
    decreases |ps|
  {
    if ps == [] then []
    else
      var ks := Keys(ps[..|ps| - 1]);
      if ps[|ps| - 1].0 in ks then ks else ks + [ps[|ps| - 1].0]
  }

  /** The total size of the groups named in `ks`. */
  function Total<T>(g: map<string, seq<T>>, ks: seq<string>): nat
    decreases |ks|
  {
    if ks == [] then 0
    else Total(g, ks[..|ks| - 1]) + (if ks[|ks| - 1] in g then |g[ks[|ks| - 1]]| else 0)
  }

  predicate Distinct(ks: seq<string>) {
    forall i, j :: 0 <= i < j < |ks| ==> ks[i] != ks[j]
  }

  /** Appending one more pair appends its value to its key's group. */
  lemma GroupSnoc<T>(ps: seq<(string, T)>, k: string, v: T)
    ensures Group(ps + [(k, v)])
         == Group(ps)[k := (if k in Group(ps) then Group(ps)[k] else []) + [v]]
  {
    assert (ps + [(k, v)])[..|ps|] == ps;
  }

  /** A key has a group exactly when some pair carries it, and its group is its members. */
  lemma {:induction false} GroupIsMembers<T>(ps: seq<(string, T)>, k: string)
    ensures k in Group(ps) <==> Members(ps, k) != []
    ensures k in Group(ps) ==> Group(ps)[k] == Members(ps, k)
    decreases |ps|
  {
    if ps != [] {
      GroupIsMembers(ps[..|ps| - 1], k);
    }
  }

  /** A value is a member of `k` exactly when the list pairs it with `k`. */
  lemma {:induction false} MembersExactly<T>(ps: seq<(string, T)>, k: string, v: T)
    ensures v in Members(ps, k) <==> (k, v) in ps
    decreases |ps|
  {
    if ps != [] {
      var init := ps[..|ps| - 1];
      MembersExactly(init, k, v);
      assert ps == init + [ps[|ps| - 1]];
    }
  }

  /** Filing distributes over concatenation: the members of `ps` come before those of `qs`. */
  lemma {:induction false} MembersAppend<T>(ps: seq<(string, T)>, qs: seq<(string, T)>, k: string)
    ensures Members(ps + qs, k) == Members(ps, k) + Members(qs, k)
    decreases |qs|
  {
    if qs != [] {
      var init := qs[..|qs| - 1];
      assert (ps + qs)[..|ps + qs| - 1] == ps + init;
      MembersAppend(ps, init, k);
    } else {
      assert ps + qs == ps;
    }
  }

  /** Every pair's value is in its key's group. */
  lemma InOwnGroup<T>(ps: seq<(string, T)>, k: string, v: T)
    requires (k, v) in ps
    ensures k in Group(ps) && v in Group(ps)[k]
  {
    MembersExactly(ps, k, v);
    GroupIsMembers(ps, k);
  }

  /** The key list names every key that has a group, and each once. */
  lemma {:induction false} KeysOfGroup<T>(ps: seq<(string, T)>)
    ensures forall k :: k in Keys(ps) <==> k in Group(ps)
    ensures Distinct(Keys(ps))
    decreases |ps|
  {
    if ps != [] {
      KeysOfGroup(ps[..|ps| - 1]);
    }
  }

  lemma {:induction false} TotalUntouched<T>(g: map<string, seq<T>>, ks: seq<string>, k: string, x: seq<T>)
    requires k !in ks
    ensures Total(g[k := x], ks) == Total(g, ks)
    decreases |ks|
  {
    if ks != [] {
      TotalUntouched(g, ks[..|ks| - 1], k, x);
    }
  }

  lemma {:induction false} TotalBump<T>(g: map<string, seq<T>>, ks: seq<string>, k: string, v: T)
    requires Distinct(ks) && k in ks && k in g
    ensures Total(g[k := g[k] + [v]], ks) == Total(g, ks) + 1
    decreases |ks|
  {
    var init := ks[..|ks| - 1];
    if ks[|ks| - 1] == k {
      assert k !in init;
      TotalUntouched(g, init, k, g[k] + [v]);
    } else {
      assert k in init;
      TotalBump(g, init, k, v);
    }
  }

  /** The groups together hold exactly as many values as the list. */
  lemma {:induction false} GroupSizes<T>(ps: seq<(string, T)>)
    ensures Total(Group(ps), Keys(ps)) == |ps|
    decreases |ps|
  {
    if ps != [] {
      var init := ps[..|ps| - 1];
      var g := Group(init);
      var ks := Keys(init);
      var k := ps[|ps| - 1].0;
      var v := ps[|ps| - 1].1;
      GroupSizes(init);
      KeysOfGroup(init);
      if k in ks {
        TotalBump(g, ks, k, v);
      } else {
        assert k !in g;
        var empty: seq<T> := [];
        assert Group(ps) == g[k := empty + [v]];
        assert empty + [v] == [v];
        assert Keys(ps) == ks + [k];
        TotalUntouched(g, ks, k, [v]);
        assert (ks + [k])[..|ks|] == ks;
      }
    }
  }

  /** No group is empty. */
  lemma NoEmptyGroup<T>(ps: seq<(string, T)>, k: string)
    requires k in Group(ps)
    ensures Group(ps)[k] != []
  {
    GroupIsMembers(ps, k);
  }

  function ByImplFilename(rs: seq<RepositoryImpl>): (ps: seq<(string, RepositoryImpl)>)
    ensures |ps| == |rs|
  {
    seq(|rs|, i requires 0 <= i < |rs| => (rs[i].implFilename, rs[i]))
  }

  function ByPackage(rs: seq<RepositoryImpl>): (ps: seq<(string, RepositoryImpl)>)
    ensures |ps| == |rs|
  {
    seq(|rs|, i requires 0 <= i < |rs| => (rs[i].repo.pkg, rs[i]))
  }

  /** `groupByImplFilename`: the records sharing each implementation file, in input order. */
  method GroupByImplFilename(rs: seq<RepositoryImpl>) returns (grouped: map<string, seq<RepositoryImpl>>)
    ensures grouped == Group(ByImplFilename(rs))
    ensures forall i :: 0 <= i < |rs| ==> rs[i].implFilename in grouped && rs[i] in grouped[rs[i].implFilename]
  {
    ghost var ps := ByImplFilename(rs);
    grouped := map[];
    for i := 0 to |rs|
      invariant grouped == Group(ps[..i])
    {
      var r := rs[i];
      grouped := grouped[r.implFilename := (if r.implFilename in grouped then grouped[r.implFilename] else []) + [r]];
      assert ps[..i + 1][..i] == ps[..i];
    }
    assert ps[..|rs|] == ps;
    forall i | 0 <= i < |rs|
      ensures rs[i].implFilename in grouped && rs[i] in grouped[rs[i].implFilename]
    {
      assert ps[i] == (rs[i].implFilename, rs[i]);
      InOwnGroup(ps, rs[i].implFilename, rs[i]);
    }
  }

  /** `groupByPackage`: the records of each API package, in input order. */
  method GroupByPackage(rs: seq<RepositoryImpl>) returns (grouped: map<string, seq<RepositoryImpl>>)
    ensures grouped == Group(ByPackage(rs))
    ensures forall i :: 0 <= i < |rs| ==> rs[i].repo.pkg in grouped && rs[i] in grouped[rs[i].repo.pkg]
  {
    ghost var ps := ByPackage(rs);
    grouped := map[];
    for i := 0 to |rs|
      invariant grouped == Group(ps[..i])
    {
      var r := rs[i];
      grouped := grouped[r.repo.pkg := (if r.repo.pkg in grouped then grouped[r.repo.pkg] else []) + [r]];
      assert ps[..i + 1][..i] == ps[..i];
    }
    assert ps[..|rs|] == ps;
    forall i | 0 <= i < |rs|
      ensures rs[i].repo.pkg in grouped && rs[i] in grouped[rs[i].repo.pkg]
    {
      assert ps[i] == (rs[i].repo.pkg, rs[i]);
      InOwnGroup(ps, rs[i].repo.pkg, rs[i]);
    }
  }

  /** Each implementation-file group holds exactly the records naming that file. */
  lemma ImplFileGroups(rs: seq<RepositoryImpl>, f: string, r: RepositoryImpl)
    requires f in Group(ByImplFilename(rs))
    ensures r in Group(ByImplFilename(rs))[f] <==> r in rs && r.implFilename == f
  {
    var ps := ByImplFilename(rs);
    GroupIsMembers(ps, f);
    MembersExactly(ps, f, r);
    if r in rs && r.implFilename == f {
      var i :| 0 <= i < |rs| && rs[i] == r;
      assert ps[i] == (f, r);
    }
  }
}
