/** The Bluetooth pairing-prompt broker: every request gets its own token and
  * a one-reply slot; there is no deduplication. */
module BluezBroker {
  import opened Common
  import Errdefs

  datatype PromptRequest = PromptRequest(
    DevicePath: string, DeviceName: string, DeviceAddr: string, RequestType: string,
    Fields: seq<string>, Hints: seq<string>, Passkey: Option<nat>)

  datatype PromptReply = PromptReply(Secrets: map<string, string>, Accept: bool, Cancel: bool)

  datatype PairingPrompt = PairingPrompt(
    Token: string, DevicePath: string, DeviceName: string, DeviceAddr: string,
    RequestType: string, Fields: seq<string>, Hints: seq<string>, Passkey: Option<nat>)

  function PromptOf(token: string, req: PromptRequest): (p: PairingPrompt)
    ensures p.Token == token && p.DevicePath == req.DevicePath && p.Passkey == req.Passkey
  {
    PairingPrompt(token, req.DevicePath, req.DeviceName, req.DeviceAddr, req.RequestType,
                  req.Fields, req.Hints, req.Passkey)
  }

  const NoReply: PromptReply := PromptReply(map[], false, false)

  /** A `Wait` ends with a reply and possibly an error, or is still
    * blocked. */
  datatype WaitResult = Done(reply: PromptReply, err: Option<string>) | Blocked

  class SubscriptionBroker {
    var pending: map<string, Option<PromptReply>>
    var requests: map<string, PromptRequest>
    var broadcasting: bool
    var broadcast: seq<PairingPrompt>

    ghost predicate Valid()
      reads this
    {
      pending.Keys == requests.Keys
    }

    constructor (withBroadcast: bool)
      ensures Valid() && pending == map[] && requests == map[]
      ensures broadcasting == withBroadcast && broadcast == []
    {
      pending, requests := map[], map[];
      broadcasting, broadcast := withBroadcast, [];
    }

    /** `Ask`: registers the generated token with an empty reply slot and
      * broadcasts the prompt; a generator error is passed on. */
    method Ask(req: PromptRequest, generated: Result<string>) returns (r: Result<string>)
      modifies this
      ensures r == generated && broadcasting == old(broadcasting)
      ensures generated.Err? ==> unchanged(this)
      ensures generated.Ok? ==>
                pending == old(pending)[generated.value := None]
                && requests == old(requests)[generated.value := req]
                && broadcast == old(broadcast)
                                + (if broadcasting then [PromptOf(generated.value, req)] else [])
      ensures old(Valid()) ==> Valid()
    {
      if generated.Err? {
        return generated;
      }
      var token := generated.value;
      pending := pending[token := None];
      requests := requests[token := req];
      if broadcasting {
        broadcast := broadcast + [PromptOf(token, req)];
      }
      return generated;
    }

    /** `Resolve`: fills the token's slot; an unknown token or a full slot
      * is an error and changes nothing. */
    method Resolve(token: string, reply: PromptReply) returns (err: Option<string>)
      modifies this
      ensures requests == old(requests) && broadcasting == old(broadcasting)
      ensures broadcast == old(broadcast)
      ensures token !in old(pending) ==>
                err == Some("unknown or expired token: " + token) && pending == old(pending)
      ensures token in old(pending) && old(pending)[token].Some? ==>
                err == Some("failed to deliver reply for token: " + token) && pending == old(pending)
      ensures token in old(pending) && old(pending)[token].None? ==>
                err == None && pending == old(pending)[token := Some(reply)]
      ensures old(Valid()) ==> Valid()
    {
      if token !in pending {
        return Some("unknown or expired token: " + token);
      }
      if pending[token].Some? {
        return Some("failed to deliver reply for token: " + token);
      }
      pending := pending[token := Some(reply)];
      return None;
    }

    /** `Wait`: `ctxDone` says the deadline fires before a reply is taken.
      * Both a timeout and a reply remove the token. */
    method Wait(token: string, ctxDone: bool) returns (r: WaitResult)
      modifies this
      ensures broadcasting == old(broadcasting) && broadcast == old(broadcast)
      ensures token !in old(pending) ==>
                r == Done(NoReply, Some("unknown token: " + token)) && unchanged(this)
      ensures token in old(pending) && !ctxDone && old(pending)[token].None? ==>
                r == Blocked && unchanged(this)
      ensures token in old(pending) && ctxDone ==>
                r == Done(NoReply, Some(Errdefs.ErrSecretPromptTimeout))
      ensures token in old(pending) && !ctxDone && old(pending)[token].Some? ==>
                var reply := old(pending)[token].value;
                r == Done(reply, if reply.Cancel then Some(Errdefs.ErrSecretPromptCancelled) else None)
      ensures r.Done? && token in old(pending) ==>
                pending == old(pending) - {token} && requests == old(requests) - {token}
      ensures old(Valid()) ==> Valid()
    {
      if token !in pending {
        return Done(NoReply, Some("unknown token: " + token));
      }
      if ctxDone {
        Cleanup(token);
        return Done(NoReply, Some(Errdefs.ErrSecretPromptTimeout));
      }
      var slot := pending[token];
      if slot.None? {
        return Blocked;
      }
      Cleanup(token);
      if slot.value.Cancel {
        return Done(slot.value, Some(Errdefs.ErrSecretPromptCancelled));
      }
      return Done(slot.value, None);
    }

    /** `cleanup`: forgets the token. */
    method Cleanup(token: string)
      modifies this
      ensures pending == old(pending) - {token} && requests == old(requests) - {token}
      ensures broadcasting == old(broadcasting) && broadcast == old(broadcast)
      ensures old(Valid()) ==> Valid()
    {
      pending := pending - {token};
      requests := requests - {token};
    }
  }

  /** Two asks for the same device register two tokens. */
  method AskTwiceTwoTokens(b: SubscriptionBroker, req: PromptRequest, t1: string, t2: string)
    requires t1 != t2
    modifies b
    ensures t1 in b.pending && t2 in b.pending && t1 in b.requests && t2 in b.requests
    ensures b.requests[t1] == b.requests[t2] == req
  {
    var r1 := b.Ask(req, Ok(t1));
    var r2 := b.Ask(req, Ok(t2));
  }

  /** A second reply before the first is taken is refused, and the first
    * is the one delivered. */
  method SecondResolveFails(b: SubscriptionBroker, token: string, first: PromptReply, second: PromptReply)
    returns (e1: Option<string>, e2: Option<string>, r: WaitResult)
    requires token in b.pending && b.pending[token].None?
    modifies b
    ensures e1 == None && e2 == Some("failed to deliver reply for token: " + token)
    ensures r.Done? && r.reply == first && token !in b.pending
  {
    e1 := b.Resolve(token, first);
    e2 := b.Resolve(token, second);
    r := b.Wait(token, false);
  }
}
