/** The role mapping of `AuthOIDCView`: which local roles a newly created
    user receives from the identity provider's `roles` claim and the
    configured default roles. Python's `str.upper`, `str.capitalize` and the
    security manager's `find_role` are taken as parameters. */
module RoleMapping {
  import opened Wrappers
  import opened Sequences

  /** The roles the adapter supports, in the order it applies them. */
  const LookFor: seq<string> := ["admin", "alpha", "gamma", "public"]

  /** `v` equals some element of `l2` once both are case-folded. */
  ghost predicate MatchesSome(v: string, l2: seq<string>, upper: string -> string)
  {
    exists w :: w in l2 && upper(w) == upper(v)
  }

  /** `[x.upper() for x in lst2]`. */
  function FoldAll(l: seq<string>, upper: string -> string): (r: seq<string>)
    ensures |r| == |l|
    ensures forall i :: 0 <= i < |l| ==> r[i] == upper(l[i])
  {
    if |l| == 0 then [] else [upper(l[0])] + FoldAll(l[1..], upper)
  }

  /** A folded value occurs among the folded list exactly when some element
      of the list folds to it. */
  lemma FoldAllMembership(v: string, l: seq<string>, upper: string -> string)
    ensures upper(v) in FoldAll(l, upper) <==> MatchesSome(v, l, upper)
  {
  }

  /** `[v for v in lst1 if v.upper() in keys]`, scanning `lst1` in order. */
  function KeepMatching(l1: seq<string>, keys: seq<string>, upper: string -> string): seq<string>
  {
    if |l1| == 0 then []
    else if upper(l1[0]) in keys then [l1[0]] + KeepMatching(l1[1..], keys, upper)
    else KeepMatching(l1[1..], keys, upper)
  }

  /** The comprehension keeps, in order, every element of `l1` whose folded
      form is among the keys, with all its copies, and nothing else. */
  lemma {:induction false} KeepMatchingSpec(l1: seq<string>, keys: seq<string>, upper: string -> string)
    ensures IsSubsequence(KeepMatching(l1, keys, upper), l1)
    ensures forall v :: v in KeepMatching(l1, keys, upper) <==> v in l1 && upper(v) in keys
    ensures forall v :: multiset(KeepMatching(l1, keys, upper))[v] ==
                       if upper(v) in keys then multiset(l1)[v] else 0
  {
    if |l1| != 0 {
      KeepMatchingSpec(l1[1..], keys, upper);
      assert l1 == [l1[0]] + l1[1..];
      var r := KeepMatching(l1, keys, upper);
      if upper(l1[0]) in keys {
        assert r[1..] == KeepMatching(l1[1..], keys, upper);
      }
    }
  }

  /** The comprehension decides the head on its own and then continues
      with the tail. */
  lemma KeepMatchingCons(v: string, tail: seq<string>, keys: seq<string>, upper: string -> string)
    ensures KeepMatching([v] + tail, keys, upper)
         == (if upper(v) in keys then [v] else []) + KeepMatching(tail, keys, upper)
  {
    assert ([v] + tail)[1..] == tail;
  }

  /** `_intersection_insensible_casse(lst1, lst2)`. */
  function Intersect(l1: seq<string>, l2: seq<string>, upper: string -> string): seq<string>
  {
    KeepMatching(l1, FoldAll(l2, upper), upper)
  }

  /** The intersection keeps exactly the elements of `l1` that match some
      element of `l2` ignoring case, each with all its copies, in `l1`
      order; so it is never longer than `l1`. */
  lemma IntersectSpec(l1: seq<string>, l2: seq<string>, upper: string -> string)
    ensures IsSubsequence(Intersect(l1, l2, upper), l1)
    ensures |Intersect(l1, l2, upper)| <= |l1|
    ensures forall v :: v in Intersect(l1, l2, upper) <==> v in l1 && MatchesSome(v, l2, upper)
    ensures forall v :: multiset(Intersect(l1, l2, upper))[v] ==
                       if MatchesSome(v, l2, upper) then multiset(l1)[v] else 0
  {
    var r := Intersect(l1, l2, upper);
    KeepMatchingSpec(l1, FoldAll(l2, upper), upper);
    SubsequenceLength(r, l1);
    forall v ensures upper(v) in FoldAll(l2, upper) <==> MatchesSome(v, l2, upper) {
      FoldAllMembership(v, l2, upper);
    }
  }

  /** `KeepMatching` only looks at which folded elements of `l1` the keys
      contain. */
  lemma {:induction false} KeepMatchingSameKeys(l1: seq<string>, k1: seq<string>, k2: seq<string>,
                                                upper: string -> string)
    requires forall v :: v in l1 ==> (upper(v) in k1 <==> upper(v) in k2)
    ensures KeepMatching(l1, k1, upper) == KeepMatching(l1, k2, upper)
  {
    if |l1| != 0 {
      assert l1[0] in l1;
      assert forall v :: v in l1[1..] ==> v in l1;
      KeepMatchingSameKeys(l1[1..], k1, k2, upper);
    }
  }

  /** The set of case-folded elements of a list. */
  function FoldedSet(l: seq<string>, upper: string -> string): set<string>
  {
    set w | w in l :: upper(w)
  }

  /** The folded list and the folded set hold the same values. */
  lemma FoldAllIsFoldedSet(l: seq<string>, upper: string -> string)
    ensures forall k :: k in FoldAll(l, upper) <==> k in FoldedSet(l, upper)
  {
  }

  /** The intersection depends on `l2` only through the set of its
      case-folded elements. */
  lemma IntersectDependsOnFoldedSet(l1: seq<string>, l2: seq<string>, l2': seq<string>,
                                    upper: string -> string)
    requires FoldedSet(l2, upper) == FoldedSet(l2', upper)
    ensures Intersect(l1, l2, upper) == Intersect(l1, l2', upper)
  {
    FoldAllIsFoldedSet(l2, upper);
    FoldAllIsFoldedSet(l2', upper);
    KeepMatchingSameKeys(l1, FoldAll(l2, upper), FoldAll(l2', upper), upper);
  }

  /** Changing the case of any element of `l2` (anything `upper` maps to the
      same value) leaves the intersection unchanged. */
  lemma IntersectIgnoresCaseOfSecond(l1: seq<string>, l2: seq<string>, l2': seq<string>,
                                     upper: string -> string)
    requires |l2| == |l2'|
    requires forall i :: 0 <= i < |l2| ==> upper(l2'[i]) == upper(l2[i])
    ensures Intersect(l1, l2, upper) == Intersect(l1, l2', upper)
  {
    forall k | k in FoldedSet(l2, upper) ensures k in FoldedSet(l2', upper) {
      var w :| w in l2 && upper(w) == k;
      var i :| 0 <= i < |l2| && l2[i] == w;
      assert l2'[i] in l2';
    }
    forall k | k in FoldedSet(l2', upper) ensures k in FoldedSet(l2, upper) {
      var w :| w in l2' && upper(w) == k;
      var i :| 0 <= i < |l2'| && l2'[i] == w;
      assert l2[i] in l2;
    }
    IntersectDependsOnFoldedSet(l1, l2, l2', upper);
  }

  /** Reordering `l2`, or adding or removing duplicates in it, leaves the
      intersection unchanged. */
  lemma IntersectIgnoresOrderAndDuplicatesOfSecond(l1: seq<string>, l2: seq<string>, l2': seq<string>,
                                                   upper: string -> string)
    requires forall w :: w in l2 <==> w in l2'
    ensures Intersect(l1, l2, upper) == Intersect(l1, l2', upper)
  {
    assert FoldedSet(l2, upper) == FoldedSet(l2', upper);
    IntersectDependsOnFoldedSet(l1, l2, l2', upper);
  }

  /** The candidate list of `_attach_roles_for`: the `roles` claim when the
      provider sent one, followed by the default roles (None means none). */
  function CandidateRoles(tokenRoles: Option<seq<string>>, defaultRoles: Option<seq<string>>): (c: seq<string>)
    ensures |c| == |tokenRoles.GetOr([])| + |defaultRoles.GetOr([])|
    ensures forall v :: v in c <==>
      (tokenRoles.Some? && v in tokenRoles.value) || (defaultRoles.Some? && v in defaultRoles.value)
    ensures tokenRoles.Some? ==> c[..|tokenRoles.value|] == tokenRoles.value
    ensures c[|tokenRoles.GetOr([])|..] == defaultRoles.GetOr([])
  {
    var defaults := defaultRoles.GetOr([]);
    match tokenRoles
    case Some(claimed) => claimed + defaults
    case None => defaults
  }

  /** The loop over `roles_to_apply`: each name is capitalised and looked up;
      names `findRole` does not know are skipped, the rest are kept in
      order. */
  function ResolveRoles<R>(names: seq<string>, capitalize: string -> string,
                           findRole: string -> Option<R>): seq<R>
  {
    if |names| == 0 then []
    else
      match findRole(capitalize(names[0]))
      case None => ResolveRoles(names[1..], capitalize, findRole)
      case Some(role) => [role] + ResolveRoles(names[1..], capitalize, findRole)
  }

  /** No name yields more than one role; nothing is dropped exactly when
      every lookup succeeds; every role found is applied and only those. */
  lemma {:induction false} ResolveRolesSpec<R>(names: seq<string>, capitalize: string -> string,
                                               findRole: string -> Option<R>)
    ensures |ResolveRoles(names, capitalize, findRole)| <= |names|
    ensures |ResolveRoles(names, capitalize, findRole)| == |names| <==>
      forall n :: n in names ==> findRole(capitalize(n)).Some?
    ensures forall n :: n in names && findRole(capitalize(n)).Some? ==>
      findRole(capitalize(n)).value in ResolveRoles(names, capitalize, findRole)
    ensures forall x :: x in ResolveRoles(names, capitalize, findRole) ==>
      exists n :: n in names && findRole(capitalize(n)) == Some(x)
  {
    if |names| != 0 {
      ResolveRolesSpec(names[1..], capitalize, findRole);
      assert names == [names[0]] + names[1..];
      var roles := ResolveRoles(names, capitalize, findRole);
      var rest := ResolveRoles(names[1..], capitalize, findRole);
      if findRole(capitalize(names[0])).Some? {
        assert roles == [findRole(capitalize(names[0])).value] + rest;
        forall x | x in roles ensures exists n :: n in names && findRole(capitalize(n)) == Some(x) {
          if x != roles[0] {
            assert x in rest;
          }
        }
      } else {
        assert roles == rest;
        assert |roles| < |names|;
      }
    }
  }

  /** Resolution decides the first name on its own and then continues with
      the rest: a found name contributes its local role, a missing one
      nothing. */
  lemma ResolveRolesCons<R>(n: string, rest: seq<string>,
                            capitalize: string -> string, findRole: string -> Option<R>)
    ensures ResolveRoles([n] + rest, capitalize, findRole)
         == (if findRole(capitalize(n)).Some? then [findRole(capitalize(n)).value] else [])
            + ResolveRoles(rest, capitalize, findRole)
  {
    assert ([n] + rest)[1..] == rest;
  }

  /** Resolution handles the names one by one in order: resolving a
      concatenation is concatenating the resolutions. */
  lemma {:induction false} ResolveRolesAppend<R>(a: seq<string>, b: seq<string>,
                                                 capitalize: string -> string, findRole: string -> Option<R>)
    ensures ResolveRoles(a + b, capitalize, findRole)
         == ResolveRoles(a, capitalize, findRole) + ResolveRoles(b, capitalize, findRole)
  {
    if |a| == 0 {
      assert a + b == b;
    } else {
      var n := a[0];
      assert a == [n] + a[1..];
      assert a + b == [n] + (a[1..] + b);
      ResolveRolesCons(n, a[1..], capitalize, findRole);
      ResolveRolesCons(n, a[1..] + b, capitalize, findRole);
      ResolveRolesAppend(a[1..], b, capitalize, findRole);
    }
  }

  /** `_attach_roles_for`: the roles the new user receives. */
  function AttachRoles<R>(tokenRoles: Option<seq<string>>, defaultRoles: Option<seq<string>>,
                          upper: string -> string, capitalize: string -> string,
                          findRole: string -> Option<R>): seq<R>
  {
    ResolveRoles(Intersect(LookFor, CandidateRoles(tokenRoles, defaultRoles), upper),
                 capitalize, findRole)
  }

  /** The role one allow-listed name contributes: its local role when the
      name matches a candidate ignoring case and the role exists locally,
      nothing otherwise. */
  ghost function AppliedFor<R>(v: string, candidates: seq<string>, upper: string -> string,
                               capitalize: string -> string, findRole: string -> Option<R>): seq<R>
  {
    if MatchesSome(v, candidates, upper) && findRole(capitalize(v)).Some?
    then [findRole(capitalize(v)).value]
    else []
  }

  /** Filtering names against the candidates and resolving the survivors
      gives, in the names' order, the contribution of each name. */
  lemma {:induction false} ResolveIntersectCons<R>(v: string, tail: seq<string>, candidates: seq<string>,
                                                   upper: string -> string, capitalize: string -> string,
                                                   findRole: string -> Option<R>)
    ensures ResolveRoles(Intersect([v] + tail, candidates, upper), capitalize, findRole)
         == AppliedFor(v, candidates, upper, capitalize, findRole)
            + ResolveRoles(Intersect(tail, candidates, upper), capitalize, findRole)
  {
    var keys := FoldAll(candidates, upper);
    KeepMatchingCons(v, tail, keys, upper);
    FoldAllMembership(v, candidates, upper);
    var head := if upper(v) in keys then [v] else [];
    ResolveRolesAppend(head, KeepMatching(tail, keys, upper), capitalize, findRole);
    if upper(v) in keys {
      ResolveRolesCons(v, [], capitalize, findRole);
      assert [v] + [] == [v];
    }
  }

  /** The roles applied are, in allow-list order, one per allow-listed
      name that matches a claimed or default role ignoring case and whose
      capitalised name exists locally. */
  lemma AttachRolesInOrder<R>(tokenRoles: Option<seq<string>>, defaultRoles: Option<seq<string>>,
                              upper: string -> string, capitalize: string -> string,
                              findRole: string -> Option<R>)
    ensures var c := CandidateRoles(tokenRoles, defaultRoles);
            (AttachRoles(tokenRoles, defaultRoles, upper, capitalize, findRole)
             == AppliedFor("admin", c, upper, capitalize, findRole)
                + AppliedFor("alpha", c, upper, capitalize, findRole)
                + AppliedFor("gamma", c, upper, capitalize, findRole)
                + AppliedFor("public", c, upper, capitalize, findRole))
  {
    var c := CandidateRoles(tokenRoles, defaultRoles);
    assert LookFor == ["admin"] + ["alpha", "gamma", "public"];
    assert ["alpha", "gamma", "public"] == ["alpha"] + ["gamma", "public"];
    assert ["gamma", "public"] == ["gamma"] + ["public"];
    assert ["public"] == ["public"] + [];
    ResolveIntersectCons("admin", ["alpha", "gamma", "public"], c, upper, capitalize, findRole);
    ResolveIntersectCons("alpha", ["gamma", "public"], c, upper, capitalize, findRole);
    ResolveIntersectCons("gamma", ["public"], c, upper, capitalize, findRole);
    ResolveIntersectCons("public", [], c, upper, capitalize, findRole);
    assert ResolveRoles(Intersect([], c, upper), capitalize, findRole) == [];
  }

  /** The roles applied are, in allow-list order, one per allow-listed name
      that matches a claimed or default role ignoring case and whose
      capitalised name exists locally; a missing local role is skipped
      rather than being an error. So at most four roles are applied. */
  lemma AttachRolesSpec<R>(tokenRoles: Option<seq<string>>, defaultRoles: Option<seq<string>>,
                           upper: string -> string, capitalize: string -> string,
                           findRole: string -> Option<R>)
    ensures var c := CandidateRoles(tokenRoles, defaultRoles);
            (AttachRoles(tokenRoles, defaultRoles, upper, capitalize, findRole)
             == AppliedFor("admin", c, upper, capitalize, findRole)
                + AppliedFor("alpha", c, upper, capitalize, findRole)
                + AppliedFor("gamma", c, upper, capitalize, findRole)
                + AppliedFor("public", c, upper, capitalize, findRole))
    ensures |AttachRoles(tokenRoles, defaultRoles, upper, capitalize, findRole)| <= |LookFor|
  {
    AttachRolesInOrder(tokenRoles, defaultRoles, upper, capitalize, findRole);
  }

  /** A role is applied exactly when it is the local role of an
      allow-listed name that matches a claimed or default role ignoring
      case. */
  lemma AttachRolesMembership<R>(tokenRoles: Option<seq<string>>, defaultRoles: Option<seq<string>>,
                                 upper: string -> string, capitalize: string -> string,
                                 findRole: string -> Option<R>)
    ensures forall x :: x in AttachRoles(tokenRoles, defaultRoles, upper, capitalize, findRole) <==>
      exists v :: v in LookFor && MatchesSome(v, CandidateRoles(tokenRoles, defaultRoles), upper)
                  && findRole(capitalize(v)) == Some(x)
  {
    AttachRolesInOrder(tokenRoles, defaultRoles, upper, capitalize, findRole);
    var c := CandidateRoles(tokenRoles, defaultRoles);
    var a := AppliedFor("admin", c, upper, capitalize, findRole);
    var b := AppliedFor("alpha", c, upper, capitalize, findRole);
    var g := AppliedFor("gamma", c, upper, capitalize, findRole);
    var p := AppliedFor("public", c, upper, capitalize, findRole);
    var roles := AttachRoles(tokenRoles, defaultRoles, upper, capitalize, findRole);
    assert roles == a + b + g + p;
    forall x ensures x in roles <==>
      exists v :: v in LookFor && MatchesSome(v, c, upper) && findRole(capitalize(v)) == Some(x)
    {
      if x in roles {
        assert x in a || x in b || x in g || x in p;
        if x in a { assert "admin" in LookFor; }
        else if x in b { assert "alpha" in LookFor; }
        else if x in g { assert "gamma" in LookFor; }
        else { assert "public" in LookFor; }
      }
      if exists v :: v in LookFor && MatchesSome(v, c, upper) && findRole(capitalize(v)) == Some(x) {
        var v :| v in LookFor && MatchesSome(v, c, upper) && findRole(capitalize(v)) == Some(x);
        assert v == "admin" || v == "alpha" || v == "gamma" || v == "public";
      }
    }
  }

  /** Passing no default roles is the same as passing an empty list. */
  lemma NoDefaultsIsEmptyDefaults<R>(tokenRoles: Option<seq<string>>,
                                     upper: string -> string, capitalize: string -> string,
                                     findRole: string -> Option<R>)
    ensures AttachRoles(tokenRoles, None, upper, capitalize, findRole)
         == AttachRoles(tokenRoles, Some([]), upper, capitalize, findRole)
  {
  }
}
