// Writes and the CSRF nonce: a client that fetches a nonce on demand, and tries
// a write once more when the nonce it held was refused.
module Csrf {

  // The answer to a write. It is assumed of a deployment that a refusal - any HTTP
  // error - leaves nothing behind; a lost answer may hide a write that was done.
  datatype WriteReply =
    | Done
    | DoneUnheard                    // done, but the connection broke
    | Unsent                         // the connection broke before it was done
    | Denied(mentionsNonce: bool)

  // The answer to a request for a nonce; "" when the header is missing.
  datatype FetchReply = Nonce(token: string) | NoConnection

  // A deployment, seen through its answers: the k-th request, whatever it is,
  // gets the k-th answer. A write's answer may depend on the nonce it carries.
  class Deployment {
    const writes: (nat, string) -> WriteReply
    const fetches: nat -> FetchReply
    var clock: nat
    var sent: nat      // writes that reached it
    var applied: nat   // writes it did

    constructor (writes: (nat, string) -> WriteReply, fetches: nat -> FetchReply)
      ensures this.writes == writes && this.fetches == fetches && clock == sent == applied == 0
    {
      this.writes, this.fetches := writes, fetches;
      clock, sent, applied := 0, 0, 0;
    }

    method Write(token: string) returns (r: WriteReply)
      modifies this
      ensures r == writes(old(clock), token) && clock == old(clock) + 1 && sent == old(sent) + 1
      ensures applied == old(applied) + if r.Done? || r.DoneUnheard? then 1 else 0
    {
      r := writes(clock, token);
      clock, sent := clock + 1, sent + 1;
      if r.Done? || r.DoneUnheard? { applied := applied + 1; }
    }

    method FetchNonce() returns (r: FetchReply)
      modifies this
      ensures r == fetches(old(clock)) && clock == old(clock) + 1 && sent == old(sent) && applied == old(applied)
    {
      r := fetches(clock);
      clock := clock + 1;
    }
  }

  datatype Result = Success | Transport | ApiError(mentionsNonce: bool)

  class Client {
    var token: string

    constructor (token: string)
      ensures this.token == token
    {
      this.token := token;
    }

    method FetchCsrf(d: Deployment) returns (ok: bool)
      modifies this, d
      ensures var r := d.fetches(old(d.clock));
              && ok == r.Nonce?
              && token == (if r.Nonce? && r.token != "" then r.token else old(token))
      ensures d.clock == old(d.clock) + 1 && d.sent == old(d.sent) && d.applied == old(d.applied)
    {
      var r := d.FetchNonce();
      match r {
        case NoConnection => return false;
        case Nonce(t) =>
          if t != "" { token := t; }
          return true;
      }
    }

    // One try. `needs` is a write to the ERS API.
    method Attempt(d: Deployment, needs: bool) returns (r: Result)
      modifies this, d
      ensures d.sent <= old(d.sent) + 1
      ensures d.applied <= old(d.applied) + 1
      ensures r.ApiError? ==> d.applied == old(d.applied)
      ensures r.Success? ==> d.applied == old(d.applied) + 1 && d.sent == old(d.sent) + 1
      ensures !needs ==> d.sent == old(d.sent) + 1
      ensures needs ==> d.sent == old(d.sent) + Reaches(d.fetches, old(d.clock), old(token))
      ensures needs ==> token == Held(d.fetches, old(d.clock), old(token))
      ensures !needs ==> token == old(token) && d.clock == old(d.clock) + 1
                         && r == Heard(d.writes(old(d.clock), ""))
                         && d.applied == old(d.applied) + Does(d.writes(old(d.clock), ""))
      ensures needs && old(token) != "" ==>
                && token == old(token) && d.clock == old(d.clock) + 1
                && r == Heard(d.writes(old(d.clock), token))
                && d.applied == old(d.applied) + Does(d.writes(old(d.clock), token))
      ensures needs && old(token) == "" && d.fetches(old(d.clock)).Nonce? ==>
                && token == d.fetches(old(d.clock)).token && d.clock == old(d.clock) + 2
                && r == Heard(d.writes(old(d.clock) + 1, token))
                && d.applied == old(d.applied) + Does(d.writes(old(d.clock) + 1, token))
      ensures needs && old(token) == "" && d.fetches(old(d.clock)).NoConnection? ==>
                && r == Transport && token == "" && d.sent == old(d.sent) && d.applied == old(d.applied)
    {
      if needs && token == "" {
        var ok := FetchCsrf(d);
        if !ok { return Transport; }
      }
      var reply := d.Write(if needs then token else "");
      r := Heard(reply);
    }

    // A write. It is tried again only when its nonce was refused, and then once.
    // Nothing but the answers to its own requests decides what becomes of it, what
    // is reported of it, and which nonce is held afterwards.
    method Do(d: Deployment, needs: bool) returns (r: Result)
      modifies this, d
      ensures d.sent <= old(d.sent) + 2
      ensures d.applied <= old(d.applied) + 1
      ensures r.Success? ==> d.applied == old(d.applied) + 1
      ensures r.ApiError? ==> d.applied == old(d.applied)
      ensures !needs ==>
                var w := d.writes(old(d.clock), "");
                && (r == Success <==> w == Done)
                && (forall m :: r == ApiError(m) <==> w == Denied(m))
                && d.applied == old(d.applied) + (if w in {Done, DoneUnheard} then 1 else 0)
                && d.sent == old(d.sent) + 1 && token == old(token)
      ensures needs ==>
                && (r.Success? <==> Ends(d.writes, d.fetches, old(d.clock), old(token), {Done}))
                && (forall m :: r == ApiError(m) <==> Refuses(d.writes, d.fetches, old(d.clock), old(token), m))
                && (d.applied == old(d.applied) + 1 <==>
                     Ends(d.writes, d.fetches, old(d.clock), old(token), {Done, DoneUnheard}))
                && d.sent == old(d.sent) + Sendings(d.writes, d.fetches, old(d.clock), old(token))
                && token == HeldAfter(d.writes, d.fetches, old(d.clock), old(token))
      ensures needs && Meets(d.writes, d.fetches, old(d.clock), old(token), {Done}) ==> d.sent == old(d.sent) + 1
    {
      r := Attempt(d, needs);
      if r.ApiError? && r.mentionsNonce && needs {
        token := "";
        var ok := FetchCsrf(d);
        if ok {
          r := Attempt(d, needs);
        }
      }
    }
  }

  function Heard(r: WriteReply): Result {
    match r
    case Done => Success
    case DoneUnheard => Transport
    case Unsent => Transport
    case Denied(m) => ApiError(m)
  }

  function Does(r: WriteReply): nat { if r.Done? || r.DoneUnheard? then 1 else 0 }

  // One try, made at this moment with this token, reaches the deployment and meets
  // one of these answers: with the token itself, or, without one, with whatever a
  // fetch then gives.
  predicate Meets(writes: (nat, string) -> WriteReply, fetches: nat -> FetchReply, t: nat, token: string,
                  replies: set<WriteReply>) {
    if token != "" then writes(t, token) in replies
    else fetches(t).Nonce? && writes(t + 1, fetches(t).token) in replies
  }

  // When the request after that one is made.
  function After(t: nat, token: string): nat { if token != "" then t + 1 else t + 2 }

  // A write ends in one of these answers: at once, or after its nonce was refused
  // and another was fetched.
  predicate Ends(writes: (nat, string) -> WriteReply, fetches: nat -> FetchReply, t: nat, token: string,
                 replies: set<WriteReply>) {
    || Meets(writes, fetches, t, token, replies)
    || (&& Meets(writes, fetches, t, token, {Denied(true)})
        && fetches(After(t, token)).Nonce?
        && Meets(writes, fetches, After(t, token) + 1, fetches(After(t, token)).token, replies))
  }

  // It ends in a refusal: at once by one that is not about its nonce; or by one that
  // is, with no other nonce to be had; or, with another, by whatever is answered then.
  predicate Refuses(writes: (nat, string) -> WriteReply, fetches: nat -> FetchReply, t: nat, token: string, m: bool) {
    || (!m && Meets(writes, fetches, t, token, {Denied(false)}))
    || (&& Meets(writes, fetches, t, token, {Denied(true)})
        && match fetches(After(t, token))
           case NoConnection => m
           case Nonce(next) => Meets(writes, fetches, After(t, token) + 1, next, {Denied(m)}))
  }

  // One try reaches the deployment unless it needs a nonce that cannot be fetched.
  function Reaches(fetches: nat -> FetchReply, t: nat, token: string): nat {
    if token != "" || fetches(t).Nonce? then 1 else 0
  }

  predicate TriedAgain(writes: (nat, string) -> WriteReply, fetches: nat -> FetchReply, t: nat, token: string) {
    Meets(writes, fetches, t, token, {Denied(true)}) && fetches(After(t, token)).Nonce?
  }

  function Sendings(writes: (nat, string) -> WriteReply, fetches: nat -> FetchReply, t: nat, token: string): nat {
    Reaches(fetches, t, token)
    + if TriedAgain(writes, fetches, t, token) then
        Reaches(fetches, After(t, token) + 1, fetches(After(t, token)).token)
      else 0
  }

  // The nonce held after one try.
  function Held(fetches: nat -> FetchReply, t: nat, token: string): string {
    if token != "" then token else if fetches(t).Nonce? then fetches(t).token else ""
  }

  // A refused nonce is not held on to.
  function HeldAfter(writes: (nat, string) -> WriteReply, fetches: nat -> FetchReply, t: nat, token: string): string {
    if !Meets(writes, fetches, t, token, {Denied(true)}) then Held(fetches, t, token)
    else match fetches(After(t, token))
      case NoConnection => ""
      case Nonce(next) => Held(fetches, After(t, token) + 1, next)
  }

  // A nonce that is fetched and honoured with the next write is enough, whether
  // the client held none or one that is refused.
  lemma HonouredNonceSucceeds(writes: (nat, string) -> WriteReply, fetches: nat -> FetchReply, t: nat, token: string)
    requires token != "" ==> writes(t, token) in {Done, Denied(true)}
    requires var u := if token == "" then t else t + 1;
             (token == "" || writes(t, token) == Denied(true)) ==>
               fetches(u).Nonce? && fetches(u).token != "" && writes(u + 1, fetches(u).token) == Done
    ensures Ends(writes, fetches, t, token, {Done})
  {
  }

  // With the check off no nonce is issued, and the write goes through without one.
  lemma UncheckedSucceeds(writes: (nat, string) -> WriteReply, fetches: nat -> FetchReply, t: nat)
    requires fetches(t) == Nonce("") && writes(t + 1, "") == Done
    ensures Ends(writes, fetches, t, "", {Done})
  {
  }

  // A held nonce that is refused, and no other to be had: the write is not done.
  lemma StaleNonceFails(writes: (nat, string) -> WriteReply, fetches: nat -> FetchReply, t: nat, token: string)
    requires token != "" && writes(t, token) == Denied(true) && fetches(t + 1).NoConnection?
    ensures !Ends(writes, fetches, t, token, {Done, DoneUnheard})
  {
  }
}
