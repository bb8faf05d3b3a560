// The resource server's decision on a token: hr_server/auth/validators.py, validate_token, over the claim
// checks of common/auth/jwt_validator.py, common/auth/peer_trust.py and common/auth/models.py.
//
// Signature and issuer checking are an input: the id of the error they raise, or none.

module Acceptance {
  import opened Common
  import opened Denylist
  import DenylistStore

  // An act claim: anything but a dict ends the chain. sub "" stands for an absent or empty one.
  datatype Act = NotADict | Dict(sub: string, act: Act)

  datatype Audience = NoAud | OneAud(aud: string) | ManyAud(auds: seq<string>)

  // scope is the claim already split into its words.
  datatype Payload = Payload(aud: Audience, jti: string, act: Act, scope: seq<string>, exp: int)

  datatype AuthError =
    | JWTValidationError(errorId: string)
    | PeerTrustError
    | ScopeError(errorId: string)

  datatype Result = Ok(claims: Payload) | Err(error: AuthError)

  // ---------------------------------------------------------------------------------------------
  // The act chain
  // ---------------------------------------------------------------------------------------------

  function ActChain(act: Act): seq<string> {
    match act
    case NotADict => []
    case Dict(sub, inner) => (if sub != "" then [sub] else []) + ActChain(inner)
  }

  // JWTClaims.act_chain: walks outermost to innermost.
  method WalkActChain(act: Act) returns (chain: seq<string>)
    ensures chain == ActChain(act)
  {
    chain := [];
    var cur := act;
    while cur.Dict?
      invariant chain + ActChain(cur) == ActChain(act)
      decreases cur
    {
      if cur.sub != "" {
        chain := chain + [cur.sub];
      }
      cur := cur.act;
    }
  }

  // The sub at one nesting depth.
  function SubAt(act: Act, depth: nat): string {
    match act
    case NotADict => ""
    case Dict(sub, inner) => if depth == 0 then sub else SubAt(inner, depth - 1)
  }

  // At exactly one depth, however deep, there is an actor, and it is a trusted one.
  ghost predicate OneTrustedActor(act: Act, trusted: set<string>) {
    exists d: nat :: OnlyActorAt(act, d) && SubAt(act, d) in trusted
  }

  ghost predicate OnlyActorAt(act: Act, d: nat) {
    SubAt(act, d) != "" && forall k: nat :: k != d ==> SubAt(act, k) == ""
  }

  ghost predicate NoActors(act: Act) {
    forall k: nat :: SubAt(act, k) == ""
  }

  lemma {:induction false} EmptyChainHasNoActors(act: Act)
    ensures ActChain(act) == [] <==> NoActors(act)
  {
    if act.Dict? {
      EmptyChainHasNoActors(act.act);
      if act.sub != "" {
        assert SubAt(act, 0) != "";
      } else if ActChain(act.act) != [] {
        var k: nat :| SubAt(act.act, k) != "";
        assert SubAt(act, k + 1) != "";
      } else {
        forall k: nat ensures SubAt(act, k) == "" {
          if k > 0 { assert SubAt(act.act, k - 1) == ""; }
        }
      }
    }
  }

  // One level without a sub changes nothing but the depths.
  lemma BlankLevel(inner: Act, actor: string)
    ensures (exists d: nat :: OnlyActorAt(Dict("", inner), d) && SubAt(Dict("", inner), d) == actor)
       <==> (exists d: nat :: OnlyActorAt(inner, d) && SubAt(inner, d) == actor)
  {
    var act := Dict("", inner);
    assert forall k: nat :: SubAt(act, k + 1) == SubAt(inner, k);
    assert forall k: nat :: k > 0 ==> SubAt(act, k) == SubAt(inner, k - 1);
    if d: nat :| OnlyActorAt(inner, d) && SubAt(inner, d) == actor {
      assert OnlyActorAt(act, d + 1) && SubAt(act, d + 1) == actor;
    }
    if d: nat :| OnlyActorAt(act, d) && SubAt(act, d) == actor {
      assert OnlyActorAt(inner, d - 1) && SubAt(inner, d - 1) == actor;
    }
  }

  lemma NamedLevel(sub: string, inner: Act, actor: string)
    requires sub != ""
    ensures (exists d: nat :: OnlyActorAt(Dict(sub, inner), d) && SubAt(Dict(sub, inner), d) == actor)
       <==> sub == actor && NoActors(inner)
  {
    var act := Dict(sub, inner);
    assert SubAt(act, 0) == sub;
    assert forall k: nat :: SubAt(act, k + 1) == SubAt(inner, k);
    if sub == actor && NoActors(inner) {
      forall k: nat | k != 0 ensures SubAt(act, k) == "" { assert SubAt(inner, k - 1) == ""; }
      assert OnlyActorAt(act, 0);
    }
    if exists d: nat :: OnlyActorAt(act, d) && SubAt(act, d) == actor {
      var d: nat :| OnlyActorAt(act, d) && SubAt(act, d) == actor;
      assert d == 0;
      forall k: nat ensures SubAt(inner, k) == "" { assert SubAt(act, k + 1) == ""; }
    }
  }

  // The chain is a single actor if and only if exactly one level names one.
  lemma {:induction false} SingleActorChain(act: Act, actor: string)
    ensures ActChain(act) == [actor] <==> exists d: nat :: OnlyActorAt(act, d) && SubAt(act, d) == actor
  {
    if act.Dict? {
      var rest := ActChain(act.act);
      if act.sub != "" {
        NamedLevel(act.sub, act.act, actor);
        EmptyChainHasNoActors(act.act);
        assert ActChain(act) == [act.sub] + rest;
        assert ActChain(act)[0] == act.sub && ActChain(act)[1..] == rest;
        assert rest == [] ==> ActChain(act) == [act.sub];
      } else {
        BlankLevel(act.act, actor);
        SingleActorChain(act.act, actor);
        assert ActChain(act) == rest;
      }
    }
  }

  // validate_chain; None is success.
  function ValidateChain(chain: seq<string>, allowed: set<string>, requireNonEmpty: bool,
                         maxDepth: int): Option<AuthError>
  {
    if chain == [] then (if requireNonEmpty then Some(PeerTrustError) else None)
    else if |chain| > maxDepth then Some(PeerTrustError)
    else if forall actor :: actor in chain ==> actor in allowed then None
    else Some(PeerTrustError)
  }

  // The depths that name an actor, from the outermost inwards.
  function DepthsInOrder(act: Act): seq<nat> {
    match act
    case NotADict => []
    case Dict(sub, inner) => (if sub != "" then [0] else []) + OneDeeper(DepthsInOrder(inner))
  }

  function OneDeeper(depths: seq<nat>): (deeper: seq<nat>)
    ensures |deeper| == |depths| && forall i :: 0 <= i < |depths| ==> deeper[i] == depths[i] + 1
  {
    seq(|depths|, i requires 0 <= i < |depths| => depths[i] + 1)
  }

  lemma {:induction false} DepthsIncrease(act: Act)
    ensures forall i, k :: 0 <= i < k < |DepthsInOrder(act)| ==> DepthsInOrder(act)[i] < DepthsInOrder(act)[k]
  {
    if act.Dict? { DepthsIncrease(act.act); }
  }

  lemma {:induction false} DepthsComplete(act: Act, d: nat)
    ensures d in DepthsInOrder(act) <==> SubAt(act, d) != ""
  {
    if act.Dict? {
      var below := DepthsInOrder(act.act);
      if d > 0 {
        DepthsComplete(act.act, d - 1);
        if d - 1 in below {
          var i :| 0 <= i < |below| && below[i] == d - 1;
          assert OneDeeper(below)[i] == d;
        }
      }
    }
  }

  lemma {:induction false} ChainAt(act: Act, i: nat)
    ensures |DepthsInOrder(act)| == |ActChain(act)|
    ensures i < |ActChain(act)| ==> ActChain(act)[i] == SubAt(act, DepthsInOrder(act)[i])
  {
    if act.Dict? {
      ChainAt(act.act, if act.sub == "" then i else if i > 0 then i - 1 else 0);
    }
  }

  // The chain lists the actors from the outermost depth inwards: one for each depth that names one.
  lemma ChainInOrder(act: Act) returns (depths: seq<nat>)
    ensures |depths| == |ActChain(act)|
    ensures forall i, k :: 0 <= i < k < |depths| ==> depths[i] < depths[k]
    ensures forall i :: 0 <= i < |depths| ==> ActChain(act)[i] == SubAt(act, depths[i])
    ensures forall d: nat :: d in depths <==> SubAt(act, d) != ""
  {
    depths := DepthsInOrder(act);
    DepthsIncrease(act);
    ChainAt(act, 0);
    forall i | 0 <= i < |depths| ensures ActChain(act)[i] == SubAt(act, depths[i]) {
      ChainAt(act, i);
    }
    forall d: nat ensures d in depths <==> SubAt(act, d) != "" {
      DepthsComplete(act, d);
    }
  }

  // For any depth limit, and whether or not a chain is required: a chain is refused exactly if no depth names
  // an actor and one is required, or more depths do than the limit allows, or one names an untrusted actor.
  lemma ChainRefusedIff(act: Act, allowed: set<string>, requireNonEmpty: bool, maxDepth: int)
    returns (named: seq<nat>)
    ensures forall i, k :: 0 <= i < k < |named| ==> named[i] < named[k]
    ensures forall d: nat :: d in named <==> SubAt(act, d) != ""
    ensures ValidateChain(ActChain(act), allowed, requireNonEmpty, maxDepth).Some?
            <==>
            || (named == [] && requireNonEmpty)
            || (named != [] && |named| > maxDepth)
            || exists d :: d in named && SubAt(act, d) !in allowed
  {
    named := ChainInOrder(act);
    var chain := ActChain(act);
    if actor :| actor in chain && actor !in allowed {
      var i :| 0 <= i < |chain| && chain[i] == actor;
      assert named[i] in named && SubAt(act, named[i]) == actor;
    }
    if d :| d in named && SubAt(act, d) !in allowed {
      var i :| 0 <= i < |named| && named[i] == d;
      assert chain[i] in chain;
    }
  }

  lemma ChainAcceptedIff(act: Act, trusted: set<string>)
    ensures ValidateChain(ActChain(act), trusted, true, 1) == None <==> OneTrustedActor(act, trusted)
  {
    var chain := ActChain(act);
    if ValidateChain(chain, trusted, true, 1) == None {
      assert chain == [chain[0]] && chain[0] in chain;
      SingleActorChain(act, chain[0]);
    }
    if OneTrustedActor(act, trusted) {
      var d: nat :| OnlyActorAt(act, d) && SubAt(act, d) in trusted;
      SingleActorChain(act, SubAt(act, d));
    }
  }

  // ---------------------------------------------------------------------------------------------
  // The checks
  // ---------------------------------------------------------------------------------------------

  datatype SharedConfig = SharedConfig(expectedAud: Option<string>, requiredScopes: set<string>)

  // aud_list of step 3.
  function AudList(aud: Audience): seq<string> {
    match aud
    case NoAud => []
    case OneAud(a) => if a != "" then [a] else []
    case ManyAud(l) => l
  }

  function WordSet(words: seq<string>): set<string> {
    set w | w in words
  }

  // jwt_validator.validate from step 2 on.
  function SharedValidate(signature: Option<string>, p: Payload, cfg: SharedConfig): Result {
    if signature.Some? then Err(JWTValidationError(signature.value))
    else if cfg.expectedAud.Some? && cfg.expectedAud.value !in AudList(p.aud)
    then Err(JWTValidationError("ERR-MCP-001"))
    else if p.jti == "" then Err(JWTValidationError("ERR-AUTH-010"))
    else if cfg.requiredScopes != {} && !(cfg.requiredScopes <= WordSet(p.scope))
    then Err(JWTValidationError("ERR-MCP-003"))
    else Ok(p)
  }

  datatype Config = Config(expectedAud: string, trustedActSubs: set<string>, requiredScopes: set<string>)

  // The checks a token has to pass, in order, each with the error its failure raises.
  datatype Check = Check(passes: bool, error: AuthError)

  // The result of running them: the error of the first that fails, if one does.
  ghost predicate DecidedBy(r: Result, p: Payload, checks: seq<Check>) {
    && (r == Ok(p) <==> AllPass(checks))
    && (r.Ok? ==> r == Ok(p))
    && (r.Err? ==> exists i :: 0 <= i < |checks| && !checks[i].passes && r.error == checks[i].error
                     && forall k :: 0 <= k < i ==> checks[k].passes)
  }

  ghost predicate AllPass(checks: seq<Check>) {
    forall i :: 0 <= i < |checks| ==> checks[i].passes
  }

  ghost predicate AudienceMatches(aud: Audience, expected: string) {
    match aud
    case NoAud => false
    case OneAud(a) => a == expected && a != ""
    case ManyAud(l) => expected in l
  }

  ghost function Checks(signature: Option<string>, p: Payload, cfg: Config, scopes: set<string>,
                        deny: seq<Entry>): seq<Check>
  {
    [Check(signature == None, JWTValidationError(if signature.Some? then signature.value else "")),
     Check(AudienceMatches(p.aud, cfg.expectedAud), JWTValidationError("ERR-MCP-001")),
     Check(p.jti != "", JWTValidationError("ERR-AUTH-010")),
     Check(OneTrustedActor(p.act, cfg.trustedActSubs), PeerTrustError),
     Check(forall w :: w in scopes ==> w in p.scope, ScopeError("ERR-MCP-003")),
     Check(!Has(deny, p.jti), ScopeError("ERR-MCP-002"))]
  }

  // Which tokens are accepted, and the error of one that is not: of the first of these that fails.
  lemma DecisionIs(r: Result, signature: Option<string>, p: Payload, cfg: Config, scopes: set<string>,
                   deny: seq<Entry>)
    requires DecidedBy(r, p, Checks(signature, p, cfg, scopes, deny))
    ensures r == if signature.Some? then Err(JWTValidationError(signature.value))
                 else if !AudienceMatches(p.aud, cfg.expectedAud) then Err(JWTValidationError("ERR-MCP-001"))
                 else if p.jti == "" then Err(JWTValidationError("ERR-AUTH-010"))
                 else if !OneTrustedActor(p.act, cfg.trustedActSubs) then Err(PeerTrustError)
                 else if exists w :: w in scopes && w !in p.scope then Err(ScopeError("ERR-MCP-003"))
                 else if exists e :: e in deny && e.jti == p.jti then Err(ScopeError("ERR-MCP-002"))
                 else Ok(p)
  {
    var checks := Checks(signature, p, cfg, scopes, deny);
    if r.Err? {
      var i :| 0 <= i < |checks| && !checks[i].passes && r.error == checks[i].error
               && forall k :: 0 <= k < i ==> checks[k].passes;
      assert i > 0 ==> checks[0].passes;
      assert i > 1 ==> checks[1].passes;
      assert i > 2 ==> checks[2].passes;
      assert i > 3 ==> checks[3].passes;
      assert i > 4 ==> checks[4].passes;
    } else {
      assert checks[0].passes && checks[1].passes && checks[2].passes;
      assert checks[3].passes && checks[4].passes && checks[5].passes;
    }
  }

  lemma ScopesCoveredIff(scopes: set<string>, words: seq<string>)
    ensures scopes - WordSet(words) == {} <==> forall w :: w in scopes ==> w in words
  {
    assert forall w :: w in scopes - WordSet(words) <==> w in scopes && w !in words;
  }

  // The shared validator on its own, which other services call with scopes of their own or no audience.
  ghost function SharedChecks(signature: Option<string>, p: Payload, cfg: SharedConfig): seq<Check> {
    [Check(signature == None, JWTValidationError(if signature.Some? then signature.value else "")),
     Check(cfg.expectedAud.Some? ==> AudienceMatches(p.aud, cfg.expectedAud.value), JWTValidationError("ERR-MCP-001")),
     Check(p.jti != "", JWTValidationError("ERR-AUTH-010")),
     Check(forall w :: w in cfg.requiredScopes ==> w in p.scope, JWTValidationError("ERR-MCP-003"))]
  }

  lemma SharedAcceptance(signature: Option<string>, p: Payload, cfg: SharedConfig)
    ensures DecidedBy(SharedValidate(signature, p, cfg), p, SharedChecks(signature, p, cfg))
  {
    var checks := SharedChecks(signature, p, cfg);
    ScopesCoveredIff(cfg.requiredScopes, p.scope);
    assert (cfg.requiredScopes <= WordSet(p.scope)) == checks[3].passes;
    if SharedValidate(signature, p, cfg).Err? {
      assert !checks[0].passes || !checks[1].passes || !checks[2].passes || !checks[3].passes;
    } else {
      assert checks[0].passes && checks[1].passes && checks[2].passes && checks[3].passes;
    }
  }

  class HRServerTokenValidator {
    const config: Config
    var revocation: DenylistStore.JtiDenylist?

    ghost predicate Valid()
      reads this, revocation
    {
      revocation != null ==> revocation.Valid()
    }

    // Without attach_revocation the denylist step is a no-op.
    ghost function Deny(): seq<Entry>
      requires Valid()
      reads this, revocation
    {
      if revocation == null then [] else revocation.Contents()
    }

    constructor (config: Config)
      ensures Valid() && this.config == config && revocation == null
    {
      this.config := config;
      revocation := null;
    }

    method AttachRevocation(state: DenylistStore.JtiDenylist)
      requires state.Valid()
      modifies this
      ensures Valid() && revocation == state
    {
      revocation := state;
    }

    // Acceptance is exact: the claims are returned if and only if every check passes, and otherwise the
    // first check that fails fixes the error. requiredScopes overrides the configured ones when given.
    method ValidateToken(signature: Option<string>, p: Payload, requiredScopes: Option<set<string>>) returns (r: Result)
      requires Valid()
      ensures var scopes := if requiredScopes.Some? then requiredScopes.value else config.requiredScopes;
              var checks := Checks(signature, p, config, scopes, Deny());
              DecidedBy(r, p, checks)
    {
      var scopes := if requiredScopes.Some? then requiredScopes.value else config.requiredScopes;
      ghost var checks := Checks(signature, p, config, scopes, Deny());
      var shared := SharedValidate(signature, p, SharedConfig(Some(config.expectedAud), {}));
      if shared.Err? {
        assert !checks[0].passes || !checks[1].passes || !checks[2].passes;
        return shared;
      }
      assert checks[0].passes && checks[1].passes && checks[2].passes;
      ChainAcceptedIff(p.act, config.trustedActSubs);
      var chain := WalkActChain(p.act);
      var peer := ValidateChain(chain, config.trustedActSubs, true, 1);
      if peer.Some? {
        assert !checks[3].passes;
        return Err(peer.value);
      }
      assert checks[3].passes;
      ScopesCoveredIff(scopes, p.scope);
      if scopes != {} {
        var missing := scopes - WordSet(p.scope);
        if missing != {} {
          assert !checks[4].passes;
          return Err(ScopeError("ERR-MCP-003"));
        }
      }
      assert checks[4].passes;
      if revocation != null && p.jti != "" {
        var revoked := revocation.Contains(p.jti);
        if revoked {
          assert !checks[5].passes;
          return Err(ScopeError("ERR-MCP-002"));
        }
      }
      assert checks[5].passes;
      return Ok(p);
    }
  }

  // ---------------------------------------------------------------------------------------------
  // Revocation at the resource server
  // ---------------------------------------------------------------------------------------------

  const LEEWAY: Time := 30.0

  // The time check, with the default leeway of ValidatorConfig.
  predicate TimeValid(exp: int, now: Time) {
    now < exp as real + LEEWAY
  }

  // A denylist history up to now in which j's last add, with expiry recorded, has not been crowded out.
  ghost predicate RevokedBy(h: seq<Op>, cap: nat, j: Jti, recorded: Time, now: Time) {
    && (forall i :: 0 <= i < |h| && h[i].Sweep? ==> h[i].cutoff <= now)
    && LastAdd(h, j) >= 0 && h[LastAdd(h, j)].exp == recorded
    && |AddedAfter(h, LastAdd(h, j))| < cap
  }

  // While now has not passed the recorded expiry, a revoked jti is on the list, whatever was swept.
  lemma ListedUntilRecordedExpiry(h: seq<Op>, cap: nat, j: Jti, recorded: Time, now: Time)
    requires cap >= 1 && RevokedBy(h, cap, j, recorded, now)
    requires now <= recorded
    ensures Has(Replay(h, cap), j)
  {
    Survival(h, cap, j);
  }

  // So a revoked token is not accepted: the denylist check, at least, fails.
  lemma RevokedNeverAccepted(h: seq<Op>, cap: nat, recorded: Time, now: Time,
                             signature: Option<string>, p: Payload, cfg: Config, scopes: set<string>)
    requires cap >= 1 && RevokedBy(h, cap, p.jti, recorded, now)
    requires now <= recorded
    ensures !AllPass(Checks(signature, p, cfg, scopes, Replay(h, cap)))
  {
    ListedUntilRecordedExpiry(h, cap, p.jti, recorded, now);
    assert !Checks(signature, p, cfg, scopes, Replay(h, cap))[5].passes;
  }

  // A history in which the token passes the time check although its revocation has been forgotten.
  ghost predicate ForgottenWhileValid(h: seq<Op>, cap: nat, j: Jti, recorded: Time, exp: int, now: Time) {
    RevokedBy(h, cap, j, recorded, now) && TimeValid(exp, now) && !Has(Replay(h, cap), j)
  }

  // Exactly when revocation lasts as long as the token: no history forgets a revoked token that still
  // passes the time check if and only if the recorded expiry covers the token's own plus the leeway. An
  // event carrying the bare exp claim leaves the leeway uncovered.
  lemma RevocationOutlivesTokenIff(cap: nat, j: Jti, recorded: Time, exp: int)
    requires cap >= 1
    ensures recorded >= exp as real + 30.0 <==> forall h, now :: !ForgottenWhileValid(h, cap, j, recorded, exp, now)
  {
    if recorded >= exp as real + LEEWAY {
      forall h, now ensures !ForgottenWhileValid(h, cap, j, recorded, exp, now) {
        if RevokedBy(h, cap, j, recorded, now) && TimeValid(exp, now) {
          ListedUntilRecordedExpiry(h, cap, j, recorded, now);
        }
      }
    } else {
      var now := (recorded + exp as real + LEEWAY) / 2.0;
      var h := [Op.Add(j, recorded), Sweep(now)];
      assert h[..1] == [Op.Add(j, recorded)];
      assert LastAdd(h, j) == 0;
      assert AddedAfter(h, 0) == {};
      assert h[1].Sweep? && h[1].cutoff > recorded;
      SweptMeansGone(h, cap, j);
      assert ForgottenWhileValid(h, cap, j, recorded, exp, now);
    }
  }
}
