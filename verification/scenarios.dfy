/** Worked examples of the adapter's behaviour, evaluated on the model with
    ASCII case folding. */
module Scenarios {
  import opened Wrappers
  import opened AsciiCase
  import opened RoleMapping
  import opened SecurityManager
  import opened LogoutFlow

  /** Provider roles `["ALPHA", "unknown"]` with default `["public"]`
      select `alpha` and `public`, in allow-list order. */
  lemma IntersectionExample()
    ensures Intersect(LookFor, CandidateRoles(Some(["ALPHA", "unknown"]), Some(["public"])), Upper)
         == ["alpha", "public"]
  {
    var candidates := CandidateRoles(Some(["ALPHA", "unknown"]), Some(["public"]));
    assert candidates == ["ALPHA", "unknown", "public"];
    UpperOfWords();
    var keys := FoldAll(candidates, Upper);
    assert keys == ["ALPHA", "UNKNOWN", "PUBLIC"];
    KeepAllowListExample(keys);
  }

  lemma KeepAllowListExample(keys: seq<string>)
    requires keys == ["ALPHA", "UNKNOWN", "PUBLIC"]
    ensures KeepMatching(LookFor, keys, Upper) == ["alpha", "public"]
  {
    UpperOfWords();
    assert Upper("admin") !in keys && Upper("alpha") in keys;
    assert Upper("gamma") !in keys && Upper("public") in keys;
    KeepMatchingCons("public", [], keys, Upper);
    KeepMatchingCons("gamma", ["public"], keys, Upper);
    KeepMatchingCons("alpha", ["gamma", "public"], keys, Upper);
    KeepMatchingCons("admin", ["alpha", "gamma", "public"], keys, Upper);
    assert LookFor == ["admin"] + ["alpha", "gamma", "public"];
  }

  lemma UpperOfWords()
    ensures Upper("ALPHA") == "ALPHA" && Upper("unknown") == "UNKNOWN" && Upper("public") == "PUBLIC"
    ensures Upper("admin") == "ADMIN" && Upper("alpha") == "ALPHA" && Upper("gamma") == "GAMMA"
  {
  }

  /** A local role table holding the four supported roles. */
  function FullRoleTable(name: string): Option<string>
  {
    if name in ["Admin", "Alpha", "Gamma", "Public"] then Some(name) else None
  }

  /** A local role table in which only `Public` exists. */
  function PublicOnlyRoleTable(name: string): Option<string>
  {
    if name == "Public" then Some(name) else None
  }

  lemma CapitalizeOfWords()
    ensures Capitalize("admin") == "Admin" && Capitalize("alpha") == "Alpha"
    ensures Capitalize("public") == "Public"
  {
  }

  /** With the same claims, a missing local `Alpha` role is skipped and the
      user still receives `Public`. */
  lemma MissingLocalRoleIsSkipped()
    ensures AttachRoles(Some(["ALPHA", "unknown"]), Some(["public"]), Upper, Capitalize, PublicOnlyRoleTable)
         == ["Public"]
  {
    IntersectionExample();
    CapitalizeOfWords();
    var names := ["alpha", "public"];
    assert names[1..] == ["public"] && names[1..][1..] == [];
    assert ResolveRoles(names[1..][1..], Capitalize, PublicOnlyRoleTable) == [];
    assert ResolveRoles(names[1..], Capitalize, PublicOnlyRoleTable) == ["Public"];
  }

  /** First login of a user whose provider roles are `["admin"]`, with the
      built-in default registration role `Public`: both `admin` and
      `public` survive the intersection. */
  lemma FirstLoginRoles()
    ensures Intersect(LookFor, CandidateRoles(Some(["admin"]), Some(["Public"])), Upper) == ["admin", "public"]
    ensures AttachRoles(Some(["admin"]), Some(["Public"]), Upper, Capitalize, FullRoleTable)
         == ["Admin", "Public"]
  {
    var candidates := CandidateRoles(Some(["admin"]), Some(["Public"]));
    assert candidates == ["admin", "Public"];
    UpperOfWords();
    assert Upper("Public") == "PUBLIC";
    var keys := FoldAll(candidates, Upper);
    assert keys == ["ADMIN", "PUBLIC"];
    FirstLoginKeep(keys);
    FirstLoginResolve(["admin", "public"]);
  }

  lemma FirstLoginResolve(names: seq<string>)
    requires names == ["admin", "public"]
    ensures ResolveRoles(names, Capitalize, FullRoleTable) == ["Admin", "Public"]
  {
    CapitalizeOfWords();
    assert FullRoleTable("Admin") == Some("Admin") && FullRoleTable("Public") == Some("Public");
    assert names[1..] == ["public"] && names[1..][1..] == [];
    assert ResolveRoles(names[1..][1..], Capitalize, FullRoleTable) == [];
    assert ResolveRoles(names[1..], Capitalize, FullRoleTable) == ["Public"];
  }

  lemma FirstLoginKeep(keys: seq<string>)
    requires keys == ["ADMIN", "PUBLIC"]
    ensures KeepMatching(LookFor, keys, Upper) == ["admin", "public"]
  {
    UpperOfWords();
    assert Upper("admin") in keys && Upper("alpha") !in keys;
    assert Upper("gamma") !in keys && Upper("public") in keys;
    KeepMatchingCons("public", [], keys, Upper);
    KeepMatchingCons("gamma", ["public"], keys, Upper);
    KeepMatchingCons("alpha", ["gamma", "public"], keys, Upper);
    KeepMatchingCons("admin", ["alpha", "gamma", "public"], keys, Upper);
    assert LookFor == ["admin"] + ["alpha", "gamma", "public"];
  }

  /** The end-to-end story: the provider notifies the logout of session
      `sid` while nothing is queued, and the next request of that still
      authenticated session is logged out, leaving the queue empty. */
  lemma BackChannelLogoutEndToEnd(sid: Sid)
    ensures var notified := SsoLogout(EmptyQueue, Decoded(Some(sid)));
            var next := CheckLoggedInOrLogout(notified.queue, RequestContext(true, Some(sid), true, true));
            notified.response == Flagged(sid) && next.loggedOut && next.queue == EmptyQueue
  {
  }
}
