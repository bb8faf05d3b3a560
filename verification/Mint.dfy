// common/auth/actor_token_provider.py, _mint and _pick_local_basic_authenticator: the App-Native Auth
// login that mints the agent's own token: authorize, up to four authn posts, one code exchange.

module Mint {
  import opened Common

  // authenticatorId "" stands for an absent one.
  datatype Authenticator = Authenticator(idp: string, name: string, id: string)

  // substring test
  predicate Contains(s: string, word: string) {
    |word| <= |s| && (s[..|word|] == word || (s != [] && Contains(s[1..], word)))
  }

  predicate OccursAt(s: string, word: string, i: nat) {
    i + |word| <= |s| && s[i..i + |word|] == word
  }

  lemma OccursLater(s: string, word: string, i: nat)
    requires s != []
    ensures OccursAt(s, word, i + 1) <==> OccursAt(s[1..], word, i)
  {
    if i + 1 + |word| <= |s| {
      assert s[1..][i..i + |word|] == s[i + 1..i + 1 + |word|];
    }
  }

  lemma {:induction false} FoundOccurs(s: string, word: string) returns (i: nat)
    requires Contains(s, word)
    ensures OccursAt(s, word, i)
  {
    if s[..|word|] == word {
      i := 0;
    } else {
      var k := FoundOccurs(s[1..], word);
      OccursLater(s, word, k);
      i := k + 1;
    }
  }

  lemma {:induction false} OccurrenceFound(s: string, word: string, i: nat)
    requires OccursAt(s, word, i)
    ensures Contains(s, word)
  {
    if i > 0 && s != [] {
      OccursLater(s, word, i - 1);
      OccurrenceFound(s[1..], word, i - 1);
    }
  }

  predicate IsLocal(a: Authenticator) {
    a.idp == "LOCAL"
  }

  predicate IsLocalBasic(a: Authenticator) {
    IsLocal(a) && (Contains(a.name, "Basic") || Contains(a.name, "Username") || Contains(a.name, "Password"))
  }

  function FirstThat(offered: seq<Authenticator>, p: Authenticator -> bool): Option<Authenticator> {
    if offered == [] then None
    else if p(offered[0]) then Some(offered[0])
    else FirstThat(offered[1..], p)
  }

  ghost predicate FirstOf(offered: seq<Authenticator>, i: nat, p: Authenticator -> bool) {
    i < |offered| && p(offered[i]) && forall k :: 0 <= k < i ==> !p(offered[k])
  }

  lemma {:induction false} FirstThatFacts(offered: seq<Authenticator>, p: Authenticator -> bool) returns (i: nat)
    ensures FirstThat(offered, p).Some? ==> FirstOf(offered, i, p) && FirstThat(offered, p).value == offered[i]
    ensures FirstThat(offered, p).None? ==> forall a :: a in offered ==> !p(a)
  {
    if offered == [] || p(offered[0]) {
      i := 0;
    } else {
      var k := FirstThatFacts(offered[1..], p);
      i := k + 1;
      assert offered == [offered[0]] + offered[1..];
    }
  }

  // A local username-and-password authenticator, else any local one, else the first offered.
  function Picked(offered: seq<Authenticator>): Option<Authenticator> {
    if offered == [] then None
    else
      var basic := FirstThat(offered, a => IsLocalBasic(a));
      var local := FirstThat(offered, a => IsLocal(a));
      if basic.Some? then basic else if local.Some? then local else Some(offered[0])
  }

  function PickLocalBasicAuthenticator(offered: seq<Authenticator>): string {
    if Picked(offered).Some? then Picked(offered).value.id else ""
  }

  // A local authenticator for a username and a password, by its name.
  ghost predicate TakesPassword(a: Authenticator) {
    && a.idp == "LOCAL"
    && exists i: nat ::
         OccursAt(a.name, "Basic", i) || OccursAt(a.name, "Username", i) || OccursAt(a.name, "Password", i)
  }

  lemma TakesPasswordIff(a: Authenticator)
    ensures IsLocalBasic(a) <==> TakesPassword(a)
  {
    if IsLocalBasic(a) {
      var word := if Contains(a.name, "Basic") then "Basic"
                  else if Contains(a.name, "Username") then "Username" else "Password";
      var i := FoundOccurs(a.name, word);
    }
    if TakesPassword(a) {
      var i: nat :|
        OccursAt(a.name, "Basic", i) || OccursAt(a.name, "Username", i) || OccursAt(a.name, "Password", i);
      var word := if OccursAt(a.name, "Basic", i) then "Basic"
                  else if OccursAt(a.name, "Username", i) then "Username" else "Password";
      OccurrenceFound(a.name, word, i);
    }
  }

  // Authenticator i is the one to choose: the first local one for a username and a password, or without any
  // of those the first local one, or without any local one the first of all.
  ghost predicate RightAt(offered: seq<Authenticator>, i: nat) {
    && i < |offered|
    && if exists a :: a in offered && TakesPassword(a) then
         TakesPassword(offered[i]) && forall k :: 0 <= k < i ==> !TakesPassword(offered[k])
       else if exists a :: a in offered && a.idp == "LOCAL" then
         offered[i].idp == "LOCAL" && forall k :: 0 <= k < i ==> offered[k].idp != "LOCAL"
       else i == 0
  }

  ghost predicate RightChoice(id: string, offered: seq<Authenticator>) {
    exists i: nat :: RightAt(offered, i) && offered[i].id == id
  }

  // The credentials go to an authenticator of the offered list, and to a local one whenever there is one;
  // among local ones, to one for a username and a password whenever there is one.
  lemma PickIsOfferedAndLocal(offered: seq<Authenticator>)
    ensures offered == [] ==> PickLocalBasicAuthenticator(offered) == ""
    ensures offered != [] ==> RightChoice(PickLocalBasicAuthenticator(offered), offered)
  {
    var b := FirstThatFacts(offered, a => IsLocalBasic(a));
    var l := FirstThatFacts(offered, a => IsLocal(a));
    forall a ensures IsLocalBasic(a) <==> TakesPassword(a) {
      TakesPasswordIff(a);
    }
    if offered != [] {
      var i := if FirstThat(offered, a => IsLocalBasic(a)).Some? then b
               else if FirstThat(offered, a => IsLocal(a)).Some? then l else 0;
      assert RightAt(offered, i);
    }
  }

  lemma OneRightChoice(offered: seq<Authenticator>, a: string, b: string)
    requires RightChoice(a, offered) && RightChoice(b, offered)
    ensures a == b
  {
    var i: nat :| RightAt(offered, i) && offered[i].id == a;
    var k: nat :| RightAt(offered, k) && offered[k].id == b;
    assert offered[i] in offered && offered[k] in offered;
  }

  // The authenticator to choose carries an id.
  ghost predicate Usable(offered: seq<Authenticator>) {
    exists id :: id != "" && RightChoice(id, offered)
  }

  lemma UsableIff(offered: seq<Authenticator>)
    ensures Usable(offered) <==> PickLocalBasicAuthenticator(offered) != ""
  {
    PickIsOfferedAndLocal(offered);
    if Usable(offered) {
      var id :| id != "" && RightChoice(id, offered);
      OneRightChoice(offered, id, PickLocalBasicAuthenticator(offered));
    }
  }

  // ---------------------------------------------------------------------------------------------
  // The login
  // ---------------------------------------------------------------------------------------------

  datatype AuthorizeReply =
    | AuthorizeRaised
    | AuthorizeBody(flowId: string, flowStatus: string, code: string, offered: seq<Authenticator>)

  // code is authData.code, or else the top-level code; loginFailed says the messages report a failed login.
  datatype AuthnReply =
    | AuthnRaised
    | AuthnBody(code: string, flowStatus: string, loginFailed: bool, offered: seq<Authenticator>)

  datatype TokenReply = TokenRaised | TokenBody(accessToken: string)

  datatype Server = Server(authorize: AuthorizeReply, authn: nat -> AuthnReply, token: string -> TokenReply)

  datatype Call = PostAuthorize | PostAuthn(flowId: string, authenticatorId: string) | ExchangeCode(code: string)

  datatype MintResult = Minted(accessToken: string) | ActorTokenError(step: string)

  const MAX_AUTHN_STEPS: nat := 4

  // IS may accept the agent on authorize itself.
  predicate ShortCircuits(r: AuthorizeReply) {
    r.AuthorizeBody? && r.flowStatus == "SUCCESS_COMPLETED" && r.code != ""
  }

  // The authenticators offered for authn post k.
  function OfferedFor(server: Server, k: nat): seq<Authenticator> {
    if k == 0 then (if server.authorize.AuthorizeBody? then server.authorize.offered else [])
    else if server.authn(k - 1).AuthnBody? then server.authn(k - 1).offered
    else []
  }

  // A reply after which the login goes on to another post.
  predicate Continues(r: AuthnReply) {
    && r.AuthnBody? && r.code == "" && r.flowStatus == "INCOMPLETE" && !r.loginFailed
    && PickLocalBasicAuthenticator(r.offered) != ""
  }

  // Post k is reached.
  ghost predicate Reaches(server: Server, k: nat) {
    && server.authorize.AuthorizeBody? && !ShortCircuits(server.authorize)
    && server.authorize.flowId != "" && PickLocalBasicAuthenticator(server.authorize.offered) != ""
    && k < MAX_AUTHN_STEPS
    && forall i: nat :: i < k ==> Continues(server.authn(i))
  }

  // The code the login yields: from authorize, or from the first authn reply that carries one.
  ghost predicate YieldsCode(server: Server, code: string) {
    && code != ""
    && if ShortCircuits(server.authorize) then code == server.authorize.code
       else exists k: nat :: Reaches(server, k) && server.authn(k).AuthnBody? && server.authn(k).code == code
  }

  ghost predicate YieldsNone(server: Server) {
    forall code :: !YieldsCode(server, code)
  }

  function AuthnCall(server: Server, k: nat): Call
    requires server.authorize.AuthorizeBody?
  {
    PostAuthn(server.authorize.flowId, PickLocalBasicAuthenticator(OfferedFor(server, k)))
  }

  function AuthnCalls(server: Server, n: nat): seq<Call>
    requires server.authorize.AuthorizeBody?
  {
    if n == 0 then [] else AuthnCalls(server, n - 1) + [AuthnCall(server, n - 1)]
  }

  // An authn reply that asks for another step and says how.
  ghost predicate AsksForMore(r: AuthnReply) {
    r.AuthnBody? && r.code == "" && r.flowStatus == "INCOMPLETE" && !r.loginFailed && Usable(r.offered)
  }

  // A login can begin with the authorize reply.
  ghost predicate Offers(r: AuthorizeReply) {
    r.AuthorizeBody? && r.flowId != "" && Usable(r.offered)
  }

  // Exactly which code a login yields, read off the replies: the one that comes with SUCCESS_COMPLETED on
  // authorize, or else the first on an authn reply, of at most four and each but the last asking for more.
  lemma CodeIff(server: Server, code: string)
    ensures YieldsCode(server, code)
       <==> code != "" && server.authorize.AuthorizeBody?
            && if server.authorize.flowStatus == "SUCCESS_COMPLETED" && server.authorize.code != "" then
                 code == server.authorize.code
               else
                 Offers(server.authorize)
                 && exists k: nat :: k < 4 && server.authn(k).AuthnBody? && server.authn(k).code == code
                                     && forall i: nat :: i < k ==> AsksForMore(server.authn(i))
  {
    if server.authorize.AuthorizeBody? { UsableIff(server.authorize.offered); }
    forall k: nat ensures Continues(server.authn(k)) <==> AsksForMore(server.authn(k)) {
      if server.authn(k).AuthnBody? { UsableIff(server.authn(k).offered); }
    }
  }

  lemma CodeIsUnique(server: Server, a: string, b: string)
    requires YieldsCode(server, a) && YieldsCode(server, b)
    ensures a == b
  {
    if !ShortCircuits(server.authorize) {
      var i: nat :| Reaches(server, i) && server.authn(i).AuthnBody? && server.authn(i).code == a;
      var k: nat :| Reaches(server, k) && server.authn(k).AuthnBody? && server.authn(k).code == b;
      assert i < k ==> Continues(server.authn(i));
      assert k < i ==> Continues(server.authn(k));
    }
  }

  ghost predicate PostsTo(call: Call, flowId: string, offered: seq<Authenticator>) {
    call.PostAuthn? && call.flowId == flowId && RightChoice(call.authenticatorId, offered)
  }

  // The credentials of post k go to the right choice of the list that very step was offered: by the
  // authorize reply the first, by the authn reply before it any other.
  ghost predicate RightPost(server: Server, k: nat, call: Call) {
    && server.authorize.AuthorizeBody?
    && if k == 0 then PostsTo(call, server.authorize.flowId, server.authorize.offered)
       else server.authn(k - 1).AuthnBody? && PostsTo(call, server.authorize.flowId, server.authn(k - 1).offered)
  }

  ghost predicate RightPosts(server: Server, posts: seq<Call>) {
    forall k :: 0 <= k < |posts| ==> RightPost(server, k, posts[k])
  }

  lemma CallIsRight(server: Server, k: nat)
    requires Reaches(server, k)
    ensures RightPost(server, k, AuthnCall(server, k))
  {
    assert k > 0 ==> Continues(server.authn(k - 1));
    PickIsOfferedAndLocal(OfferedFor(server, k));
  }

  lemma {:induction false} CallAt(server: Server, n: nat, k: nat)
    requires server.authorize.AuthorizeBody?
    ensures |AuthnCalls(server, n)| == n && (k < n ==> AuthnCalls(server, n)[k] == AuthnCall(server, k))
  {
    if n > 0 { CallAt(server, n - 1, k); }
  }

  lemma CallsAreRight(server: Server, n: nat)
    requires server.authorize.AuthorizeBody?
    requires forall k: nat :: k < n ==> Reaches(server, k)
    ensures RightPosts(server, AuthnCalls(server, n))
  {
    var posts := AuthnCalls(server, n);
    CallAt(server, n, 0);
    forall k | 0 <= k < |posts| ensures RightPost(server, k, posts[k]) {
      CallAt(server, n, k);
      CallIsRight(server, k);
    }
  }

  // Step 2 of the login: posts authn until a code arrives or the login fails.
  method Login(server: Server) returns (code: string, log: seq<Call>)
    requires Reaches(server, 0)
    ensures code != "" ==> YieldsCode(server, code)
    ensures code == "" ==> YieldsNone(server)
    ensures 1 <= |log| <= 4
    ensures log == AuthnCalls(server, |log|)
    ensures RightPosts(server, log)
  {
    log := [];
    var current := PickLocalBasicAuthenticator(server.authorize.offered);
    for step := 0 to MAX_AUTHN_STEPS
      invariant |log| == step && log == AuthnCalls(server, step)
      invariant step < MAX_AUTHN_STEPS ==> Reaches(server, step)
      invariant step == MAX_AUTHN_STEPS ==> AllContinue(server)
      invariant current == PickLocalBasicAuthenticator(OfferedFor(server, step))
    {
      log := log + [PostAuthn(server.authorize.flowId, current)];
      var body := server.authn(step);
      assert forall k: nat :: k < step + 1 ==> Reaches(server, k);
      CallsAreRight(server, step + 1);
      if body.AuthnBody? && body.code != "" {
        return body.code, log;
      }
      if !Continues(body) {
        NoLaterCode(server, step);
        return "", log;
      }
      ReachesNext(server, step);
      current := PickLocalBasicAuthenticator(body.offered);
    }
    NoCodeAtAll(server);
    assert forall k: nat :: k < MAX_AUTHN_STEPS ==> Reaches(server, k);
    CallsAreRight(server, MAX_AUTHN_STEPS);
    return "", log;
  }

  ghost predicate AllContinue(server: Server) {
    forall i: nat :: i < MAX_AUTHN_STEPS ==> Continues(server.authn(i))
  }

  lemma ReachesNext(server: Server, k: nat)
    requires Reaches(server, k) && Continues(server.authn(k))
    ensures if k + 1 < MAX_AUTHN_STEPS then Reaches(server, k + 1) else AllContinue(server)
  {
  }

  lemma NoLaterCode(server: Server, k: nat)
    requires Reaches(server, k) && !Continues(server.authn(k))
    requires !(server.authn(k).AuthnBody? && server.authn(k).code != "")
    ensures YieldsNone(server)
  {
    forall c ensures !YieldsCode(server, c) {
      forall j: nat | Reaches(server, j) ensures !(server.authn(j).AuthnBody? && server.authn(j).code == c && c != "") {
        if j < k { assert Continues(server.authn(j)); }
        assert j <= k;
      }
    }
  }

  lemma NoCodeAtAll(server: Server)
    requires !ShortCircuits(server.authorize) && AllContinue(server)
    ensures YieldsNone(server)
  {
  }

  // Ends after one authorize, at most four authn and at most one token request, in that order; every
  // authenticator posted is the one picked from that step's own list; a token is returned exactly when the
  // login yields a code and its exchange yields an access token.
  method MintToken(server: Server) returns (result: MintResult, log: seq<Call>)
    ensures exists n: nat, code: string :: n <= MAX_AUTHN_STEPS && CallLog(server, n, code, log)
    ensures forall code: string, token: string ::
              YieldsCode(server, code) && server.token(code) == TokenBody(token) && token != "" ==>
                result == Minted(token)
    ensures result.Minted? ==>
              exists code: string :: YieldsCode(server, code) && ExchangeCode(code) in log
                && server.token(code) == TokenBody(result.accessToken) && result.accessToken != ""
    // the step a failure names
    ensures result == ActorTokenError("authorize") <==>
              || server.authorize.AuthorizeRaised?
              || (!ShortCircuits(server.authorize) && !Offers(server.authorize))
    ensures result == ActorTokenError("token_exchange") <==>
              exists code :: YieldsCode(server, code)
                && (server.token(code).TokenRaised? || server.token(code).accessToken == "")
    ensures result.ActorTokenError? ==> result.step in ["authorize", "authn", "token_exchange"]
  {
    log := [PostAuthorize];
    var authorize := server.authorize;
    if authorize.AuthorizeRaised? {
      assert CallLog(server, 0, "", log);
      return ActorTokenError("authorize"), log;
    }
    UsableIff(authorize.offered);
    var code := "";
    ghost var posts: nat := 0;
    if ShortCircuits(authorize) {
      code := authorize.code;
    } else {
      if authorize.flowId == "" || PickLocalBasicAuthenticator(authorize.offered) == "" {
        assert CallLog(server, 0, "", log);
        return ActorTokenError("authorize"), log;
      }
      var calls: seq<Call>;
      code, calls := Login(server);
      log := log + calls;
      posts := |calls|;
    }
    if code == "" {
      assert CallLog(server, posts, "", log);
      return ActorTokenError("authn"), log;
    }
    assert YieldsCode(server, code);
    ghost var before := log;
    log := log + [ExchangeCode(code)];
    assert CallLog(server, posts, code, log) by {
      assert ShortCircuits(authorize) ==> [PostAuthorize] + AuthnCalls(server, 0) + [ExchangeCode(code)] == log;
    }
    forall c: string | YieldsCode(server, c) ensures c == code {
      CodeIsUnique(server, c, code);
    }
    var reply := server.token(code);
    if reply.TokenRaised? || reply.accessToken == "" {
      return ActorTokenError("token_exchange"), log;
    }
    return Minted(reply.accessToken), log;
  }

  // The calls of a mint that makes n authn posts and exchanges code, "" for none.
  ghost predicate CallLog(server: Server, n: nat, code: string, log: seq<Call>) {
    && (n > 0 ==> server.authorize.AuthorizeBody? && !ShortCircuits(server.authorize))
    && (code != "" ==> YieldsCode(server, code))
    && (server.authorize.AuthorizeBody? ==> RightPosts(server, AuthnCalls(server, n)))
    && log == [PostAuthorize]
              + (if server.authorize.AuthorizeBody? then AuthnCalls(server, n) else [])
              + (if code != "" then [ExchangeCode(code)] else [])
  }
}
