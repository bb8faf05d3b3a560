// common/revocation/internal_events.py, receive_event: the shared POST /internal/events receiver.

module InternalEvents {
  import opened Common
  import opened Denylist
  import DenylistStore
  import RateLimit
  import Dispatcher

  datatype Reply =
    | RateLimited                    // 429
    | InvalidSecret                  // 401
    | UnknownEventType               // 400
    | Acked(alreadyPresent: bool)    // 200

  class EventReceiver {
    const sharedSecret: string
    const limiter: RateLimit.RateLimiter
    const revokedJtis: DenylistStore.JtiDenylist
    // The on_revoke hook: an agent's dispatcher, or none on a resource server.
    const onRevoke: Dispatcher.HRDispatcher?

    ghost predicate Valid()
      reads limiter, revokedJtis
    {
      sharedSecret != "" && limiter.Valid() && revokedJtis.Valid()
    }

    // An empty secret is refused when the router is built.
    constructor (sharedSecret: string, limiter: RateLimit.RateLimiter, revokedJtis: DenylistStore.JtiDenylist,
                 onRevoke: Dispatcher.HRDispatcher?)
      requires sharedSecret != ""
      requires limiter.Valid() && revokedJtis.Valid()
      ensures Valid()
      ensures this.sharedSecret == sharedSecret && this.limiter == limiter
      ensures this.revokedJtis == revokedJtis && this.onRevoke == onRevoke
    {
      this.sharedSecret := sharedSecret;
      this.limiter := limiter;
      this.revokedJtis := revokedJtis;
      this.onRevoke := onRevoke;
    }

    // The denylist add and the hook: on an agent, the Revoke step of RevocationSystem.
    method Record(j: Jti, exp: Time) returns (alreadyPresent: bool)
      requires revokedJtis.Valid()
      modifies revokedJtis, if onRevoke != null then {onRevoke} else {}
      ensures revokedJtis.Valid()
      ensures alreadyPresent == Has(old(revokedJtis.Contents()), j)
      ensures revokedJtis.Contents() == Added(old(revokedJtis.Contents()), revokedJtis.hardCap, j, exp)
      ensures onRevoke != null ==> onRevoke.View() == Dispatcher.AfterRevoke(old(onRevoke.View()), j)
    {
      alreadyPresent := revokedJtis.Contains(j);
      revokedJtis.Add(j, exp);
      if onRevoke != null {
        onRevoke.RevokeJti(j);
      }
    }

    // The rate limit comes first, the secret before the event type, and nothing but an acknowledged event
    // changes the denylist or the agent.
    method Receive(host: RateLimit.Host, secret: Option<string>, kind: string, j: Jti, exp: Time, now: Time)
      returns (reply: Reply)
      requires Valid()
      modifies limiter, revokedJtis, if onRevoke != null then {onRevoke} else {}
      ensures Valid()
      // which of the four replies it gets
      ensures reply.RateLimited? <==> !old(limiter.Admits(host, now))
      ensures reply.InvalidSecret? <==> !reply.RateLimited? && secret != Some(sharedSecret)
      ensures reply.UnknownEventType? <==>
                !reply.RateLimited? && secret == Some(sharedSecret) && kind != "session-revoked"
      ensures reply.Acked? <==> !reply.RateLimited? && secret == Some(sharedSecret) && kind == "session-revoked"
      ensures reply.Acked? ==> (reply.alreadyPresent <==> Has(old(revokedJtis.Contents()), j))
      // the limit, as long as the clock has not stepped back: 100 admissions of the host in the last 60 s
      ensures old(RateLimit.ClockNeverSteppedBack(limiter.history) && RateLimit.NoneLater(limiter.history, now)) ==>
                (reply.RateLimited? <==>
                 old(RateLimit.CountIn(RateLimit.Admissions(limiter.history, host), now - 60.0, now)) >= 100)
      // and what it changes
      ensures limiter.history == old(limiter.history) + [RateLimit.Request(host, now)]
      ensures revokedJtis.Contents()
           == if reply.Acked? then Added(old(revokedJtis.Contents()), revokedJtis.hardCap, j, exp)
              else old(revokedJtis.Contents())
      ensures onRevoke != null ==>
                onRevoke.View() == if reply.Acked? then Dispatcher.AfterRevoke(old(onRevoke.View()), j)
                                   else old(onRevoke.View())
    {
      if RateLimit.ClockNeverSteppedBack(limiter.history) && RateLimit.NoneLater(limiter.history, now) {
        RateLimit.ExactlyTheWindow(limiter.history, host, now);
      }
      var admitted := limiter.Check(host, now);
      if !admitted {
        return RateLimited;
      }
      var provided := if secret.Some? then secret.value else "";
      if provided != sharedSecret {
        return InvalidSecret;
      }
      if kind != "session-revoked" {
        return UnknownEventType;
      }
      var alreadyPresent := Record(j, exp);
      return Acked(alreadyPresent);
    }
  }
}
