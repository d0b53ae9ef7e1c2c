/**
 Sessions of the portal and how they end.  A session carries the password
 version its user had when it was minted; getSession compares it with the
 committed row, for the user and, while impersonating, for the real actor.
 */
module PortalSessions {
  import opened Options
  import opened Text
  import opened PortalAccounts

  datatype Origin = Origin(sub: UserId, email: string, name: string, role: string, pwv: Option<nat>)

  datatype Claims = Claims(
    sub: UserId, email: string, name: string, role: string, perms: seq<string>,
    shortcodeIds: Option<seq<int>>, shortcodeFrom: map<int, int>,
    pwv: Option<nat>, imp: Option<Origin>)

  predicate UserStillValid(users: map<UserId, User>, sub: UserId, pwv: nat) {
    sub in users && users[sub].active && users[sub].version == pwv
  }

  /** The session the cookie stands for, or None when it is refused. */
  function GetSession(users: map<UserId, User>, claims: Claims): Option<Claims> {
    if !UserStillValid(users, claims.sub, claims.pwv.GetOr(0)) then None
    else if claims.imp.Some? && !UserStillValid(users, claims.imp.value.sub, claims.imp.value.pwv.GetOr(0)) then None
    else Some(claims)
  }

  // ---- every committed bump is counted -------------------------------------------

  /** What committing this request adds to the version of the row it read. */
  function BumpOf(req: Request, cur: User): nat {
    match req
    case UpdateUser(_, email, _, _, _) => Bump(cur.email, email)
    case UpdateViewer(_, email, _, _, _) => Bump(cur.email, email)
    case SetPassword(_, _) => 1
    case ChangeOwnPassword(_, _, _) => 1
  }

  function BumpAt(s: State, step: Step, id: UserId): nat {
    if step.Commit? && step.tx in s.txs && s.txs[step.tx].Updated? && s.txs[step.tx].req.id == id
    then BumpOf(s.txs[step.tx].req, s.txs[step.tx].cur) else 0
  }

  /** How often a run signs user `id` out: password resets, own changes, token
      resets and e-mail changes that commit. */
  function BumpsIn(c: Schema, s: State, steps: seq<Step>, id: UserId): nat
    decreases |steps|
  {
    if steps == [] then 0 else BumpAt(s, steps[0], id) + BumpsIn(c, Apply(c, s, steps[0]), steps[1..], id)
  }

  lemma ApplyCountsBumps(c: Schema, s: State, step: Step, id: UserId)
    requires Locked(c, s) && id in s.users
    ensures var s' := Apply(c, s, step);
            id in s'.users && s'.users[id].version == s.users[id].version + BumpAt(s, step, id)
  {
    if step.Commit? && step.tx in s.txs { assert Owns(c, s, step.tx); }
  }

  /** The password version of a user is its starting value plus the number of
      committed bumps, in every interleaving: it never goes back, and no
      concurrent bump is lost. */
  lemma {:induction false} VersionCountsBumps(c: Schema, s: State, steps: seq<Step>, id: UserId)
    requires Locked(c, s) && id in s.users
    ensures var s' := Run(c, s, steps);
            id in s'.users && s'.users[id].version == s.users[id].version + BumpsIn(c, s, steps, id)
    decreases |steps|
  {
    if steps != [] {
      ApplyCountsBumps(c, s, steps[0], id);
      ApplyKeepsLocked(c, s, steps[0]);
      VersionCountsBumps(c, Apply(c, s, steps[0]), steps[1..], id);
    }
  }

  // ---- revocation -----------------------------------------------------------------

  /** The session speaks for user `id` (as itself or as the impersonator) and
      was minted no later than this state. */
  predicate MintedFor(users: map<UserId, User>, claims: Claims, id: UserId) {
    id in users &&
    ((claims.sub == id && claims.pwv.GetOr(0) <= users[id].version)
     || (claims.imp.Some? && claims.imp.value.sub == id && claims.imp.value.pwv.GetOr(0) <= users[id].version))
  }

  lemma OutdatedIsRefused(users: map<UserId, User>, claims: Claims, id: UserId)
    requires id in users
    requires (claims.sub == id && claims.pwv.GetOr(0) < users[id].version)
          || (claims.imp.Some? && claims.imp.value.sub == id && claims.imp.value.pwv.GetOr(0) < users[id].version)
    ensures GetSession(users, claims).None?
  {
  }

  /** Once a bump for a user commits, every session minted before it that
      speaks for that user is refused in every later state. */
  lemma BumpRevokesForever(c: Schema, s: State, before: seq<Step>, tx: TxId, after: seq<Step>, claims: Claims,
      id: UserId)
    requires Locked(c, s) && MintedFor(s.users, claims, id)
    requires BumpAt(Run(c, s, before), Commit(tx), id) > 0
    ensures GetSession(Run(c, s, before + [Commit(tx)] + after).users, claims).None?
  {
    var s1 := Run(c, s, before);
    var s2 := Apply(c, s1, Commit(tx));
    VersionCountsBumps(c, s, before, id);
    RunKeepsLocked(c, s, before);
    ApplyCountsBumps(c, s1, Commit(tx), id);
    ApplyKeepsLocked(c, s1, Commit(tx));
    VersionCountsBumps(c, s2, after, id);
    assert before + [Commit(tx)] + after == before + ([Commit(tx)] + after);
    RunConcat(c, s, before, [Commit(tx)] + after);
    RunCons(c, s1, Commit(tx), after);
    OutdatedIsRefused(Run(c, s2, after).users, claims, id);
  }

  /** And nothing else revokes: a login session is accepted in a later state
      exactly when the user is active there and no bump has committed since. */
  lemma AcceptedExactlyUntilBump(c: Schema, s: State, steps: seq<Step>, claims: Claims)
    requires Locked(c, s) && claims.imp.None?
    requires claims.sub in s.users && claims.pwv == Some(s.users[claims.sub].version)
    ensures var s' := Run(c, s, steps);
            GetSession(s'.users, claims).Some?
            <==> claims.sub in s'.users && s'.users[claims.sub].active && BumpsIn(c, s, steps, claims.sub) == 0
  {
    VersionCountsBumps(c, s, steps, claims.sub);
  }

  /** A session that views as somebody is accepted in a later state exactly when
      neither user has been deactivated or signed out since. */
  lemma ViewingAcceptedExactly(c: Schema, s: State, steps: seq<Step>, claims: Claims)
    requires Locked(c, s) && claims.imp.Some? && claims.sub in s.users && claims.imp.value.sub in s.users
    requires claims.pwv == Some(s.users[claims.sub].version)
    requires claims.imp.value.pwv == Some(s.users[claims.imp.value.sub].version)
    ensures var s' := Run(c, s, steps);
            var actor := claims.imp.value.sub;
            && claims.sub in s'.users && actor in s'.users
            && (GetSession(s'.users, claims).Some? <==>
                  && s'.users[claims.sub].active && BumpsIn(c, s, steps, claims.sub) == 0
                  && s'.users[actor].active && BumpsIn(c, s, steps, actor) == 0)
  {
    VersionCountsBumps(c, s, steps, claims.sub);
    VersionCountsBumps(c, s, steps, claims.imp.value.sub);
  }

  // ---- impersonation ----------------------------------------------------------------

  function Implies(p: string): seq<string> {
    if p == "reports.view_all" then ["reports.view_own"]
    else if p == "shortcodes.manage" then ["shortcodes.view", "shortcodes.manage_sandbox"]
    else if p == "portal_users.manage" then ["portal_users.view"]
    else []
  }

  /** `have` grants `p`, directly or through a permission that subsumes it. */
  predicate Covers(have: seq<string>, p: string) {
    p in have || exists q :: q in have && p in Implies(q)
  }

  /** The permissions that carry others, one by one. */
  lemma CoversExactly(have: seq<string>, p: string)
    ensures Covers(have, p) <==>
              || p in have
              || (p == "reports.view_own" && "reports.view_all" in have)
              || (p == "shortcodes.view" && "shortcodes.manage" in have)
              || (p == "shortcodes.manage_sandbox" && "shortcodes.manage" in have)
              || (p == "portal_users.view" && "portal_users.manage" in have)
  {
    ImpliedBy("reports.view_all", "shortcodes.manage", "portal_users.manage", p);
  }

  lemma ImpliedBy(all: string, codes: string, people: string, p: string)
    requires all == "reports.view_all" && codes == "shortcodes.manage" && people == "portal_users.manage"
    ensures p in Implies(all) <==> p == "reports.view_own"
    ensures p in Implies(codes) <==> p == "shortcodes.view" || p == "shortcodes.manage_sandbox"
    ensures p in Implies(people) <==> p == "portal_users.view"
    ensures forall q :: p in Implies(q) ==> q == all || q == codes || q == people
  {
    assert |all| == 16 && |codes| == 17 && |people| == 19;
  }

  method ExpandPerms(perms: seq<string>) returns (out: set<string>)
    ensures forall p :: p in out <==> Covers(perms, p)
  {
    out := set p | p in perms;
    for i := 0 to |perms|
      invariant forall p :: p in out <==> p in perms || exists k :: 0 <= k < i && p in Implies(perms[k])
    {
      var implied := Implies(perms[i]);
      for j := 0 to |implied|
        invariant forall p :: p in out <==> p in perms || (exists k :: 0 <= k < i && p in Implies(perms[k]))
                                            || p in implied[..j]
      {
        out := out + {implied[j]};
      }
      assert implied[..|implied|] == implied;
    }
    forall p ensures p in out <==> Covers(perms, p) {
      if exists k :: 0 <= k < |perms| && p in Implies(perms[k]) {
        var k :| 0 <= k < |perms| && p in Implies(perms[k]);
        assert perms[k] in perms;
      }
      if q :| q in perms && p in Implies(q) {
        var k :| 0 <= k < |perms| && perms[k] == q;
      }
    }
  }

  function Filter<T(==)>(ps: seq<T>, keep: set<T>): seq<T> {
    if ps == [] then []
    else
      var last := ps[|ps| - 1];
      Filter(ps[..|ps| - 1], keep) + if last in keep then [last] else []
  }

  /** `kept` is what stands at the positions `at` of `ps`, in order. */
  ghost predicate Subsequence<T>(ps: seq<T>, kept: seq<T>, at: seq<nat>) {
    && |at| == |kept|
    && (forall i :: 0 <= i < |at| ==> at[i] < |ps| && ps[at[i]] == kept[i])
    && (forall i, j :: 0 <= i < j < |at| ==> at[i] < at[j])
  }

  lemma SubsequenceSnoc<T>(ps: seq<T>, kept: seq<T>, at: seq<nat>, x: T)
    requires Subsequence(ps, kept, at)
    ensures Subsequence(ps + [x], kept, at) && Subsequence(ps + [x], kept + [x], at + [|ps|])
  {
  }

  lemma PositionsSnoc(at: seq<nat>, n: nat)
    ensures forall k: nat :: k in at + [n] <==> k in at || k == n
  {
  }

  /** Exactly the positions of members of `keep` stay, in their order. */
  lemma {:induction false} FilterKeepsOrder<T>(ps: seq<T>, keep: set<T>) returns (at: seq<nat>)
    ensures Subsequence(ps, Filter(ps, keep), at)
    ensures forall k: nat :: k in at <==> k < |ps| && ps[k] in keep
  {
    if ps == [] { return []; }
    var front, last := ps[..|ps| - 1], ps[|ps| - 1];
    at := FilterKeepsOrder(front, keep);
    assert ps == front + [last];
    SubsequenceSnoc(front, Filter(front, keep), at, last);
    PositionsSnoc(at, |front|);
    if last in keep {
      at := at + [|front|];
    } else {
      assert Filter(front, keep) + [] == Filter(front, keep);
    }
  }

  /** Claims for "actor views the dashboard as target". */
  method ImpersonatedClaims(actor: Claims, target: Claims) returns (r: Claims)
    ensures r == target.(perms := r.perms,
                         imp := Some(Origin(actor.sub, actor.email, actor.name, actor.role, actor.pwv)))
    ensures exists at :: Subsequence(target.perms, r.perms, at)
                         && forall k: nat :: k in at <==> k < |target.perms| && Covers(actor.perms, target.perms[k])
  {
    var actorPerms := ExpandPerms(actor.perms);
    r := target.(perms := Filter(target.perms, actorPerms),
                 imp := Some(Origin(actor.sub, actor.email, actor.name, actor.role, actor.pwv)));
    ghost var at := FilterKeepsOrder(target.perms, actorPerms);
  }

  /** What a permission implies implies nothing further. */
  lemma ImpliedIsLeaf(r: string, q: string)
    requires q in Implies(r)
    ensures Implies(q) == []
  {
    var i :| 0 <= i < |Implies(r)| && Implies(r)[i] == q;
    assert |q| == 15 || |q| == 16 || |q| == 25 || |q| == 17;
    if q in ["reports.view_own"] {
      assert q[8] == 'v' && |q| == 16;
    } else if q in ["shortcodes.view", "shortcodes.manage_sandbox"] {
      assert |q| == 15 || |q| == 25;
    } else {
      assert q == "portal_users.view";
    }
  }

  /** One pass of expansion is enough: what is covered by covered permissions
      is covered already. */
  lemma CoversIsClosed(have: seq<string>, more: seq<string>, p: string)
    requires forall q :: q in more ==> Covers(have, q)
    ensures Covers(more, p) ==> Covers(have, p)
  {
    if p !in more && Covers(more, p) {
      var q :| q in more && p in Implies(q);
      if q !in have {
        var r :| r in have && q in Implies(r);
        ImpliedIsLeaf(r, q);
      }
    }
  }
}
