/** The network service's credential-prompt broker: the secret agent asks
  * for credentials under a token, a client answers it, and the agent waits
  * for the answer. A prompt for a connection path and setting that is
  * already pending is not asked twice. */
module NetworkBroker {
  import opened Common
  import opened NetworkTypes
  import Errdefs

  /** What is broadcast to clients for a new prompt. */
  datatype CredentialPrompt = CredentialPrompt(
    Token: string, Name: string, SSID: string, ConnType: string, VpnService: string,
    Setting: string, Fields: seq<string>, Hints: seq<string>, Reason: string,
    ConnectionId: string, ConnectionUuid: string)

  /** The key under which a prompt is deduplicated: "path:setting". */
  function PathSettingKey(path: string, setting: string): (k: string)
    ensures k == path + ":" + setting
    ensures |k| == |path| + 1 + |setting| && k[|path|] == ':'
  {
    path + ":" + setting
  }

  function KeyOf(req: PromptRequest): string
  {
    PathSettingKey(req.ConnectionPath, req.SettingName)
  }

  function PromptOf(token: string, req: PromptRequest): (p: CredentialPrompt)
    ensures p.Token == token && p.Setting == req.SettingName
  {
    CredentialPrompt(token, req.Name, req.SSID, req.ConnType, req.VpnService, req.SettingName,
                     req.Fields, req.Hints, req.Reason, req.ConnectionId, req.ConnectionUuid)
  }

  /** The empty reply Go returns alongside an error. */
  const NoReply: PromptReply := PromptReply(map[], false, false)

  /** How a `Wait` ends: with a reply and possibly an error, or still
    * blocked because neither a reply nor the deadline has arrived. */
  datatype WaitResult = Done(reply: PromptReply, err: Option<string>) | Blocked

  class SubscriptionBroker {
    /** Token to its reply slot, which holds at most one reply. */
    var pending: map<string, Option<PromptReply>>
    var requests: map<string, PromptRequest>
    var pathSettingToToken: map<string, string>
    /** Whether a broadcast callback is installed, and what it was sent. */
    var broadcasting: bool
    var broadcast: seq<CredentialPrompt>

    /** Every pending token has its request, and the dedupe map is a
      * bijection between the pending tokens and their keys. */
    ghost predicate Valid()
      reads this`pending, this`requests, this`pathSettingToToken
    {
      pending.Keys == requests.Keys
      && (forall k :: k in pathSettingToToken ==>
            pathSettingToToken[k] in requests && KeyOf(requests[pathSettingToToken[k]]) == k)
      && (forall t :: t in requests ==>
            KeyOf(requests[t]) in pathSettingToToken && pathSettingToToken[KeyOf(requests[t])] == t)
    }

    constructor (withBroadcast: bool)
      ensures Valid()
      ensures pending == map[] && requests == map[] && pathSettingToToken == map[]
      ensures broadcasting == withBroadcast && broadcast == []
    {
      pending, requests, pathSettingToToken := map[], map[], map[];
      broadcasting, broadcast := withBroadcast, [];
    }

    /** `Ask`: a pending prompt for the same path and setting returns its
      * token and changes nothing; otherwise the generated token (or the
      * generator's error) is used to register and broadcast the prompt. */
    method Ask(req: PromptRequest, generated: Result<string>) returns (r: Result<string>)
      modifies this
      ensures broadcasting == old(broadcasting)
      ensures KeyOf(req) in old(pathSettingToToken) ==>
                r == Ok(old(pathSettingToToken)[KeyOf(req)])
                && pending == old(pending) && requests == old(requests)
                && pathSettingToToken == old(pathSettingToToken) && broadcast == old(broadcast)
      ensures KeyOf(req) !in old(pathSettingToToken) && generated.Err? ==>
                r == generated && unchanged(this)
      ensures KeyOf(req) !in old(pathSettingToToken) && generated.Ok? ==>
                var t := generated.value;
                r == Ok(t)
                && pending == old(pending)[t := None]
                && requests == old(requests)[t := req]
                && pathSettingToToken == old(pathSettingToToken)[KeyOf(req) := t]
                && broadcast == old(broadcast) + (if broadcasting then [PromptOf(t, req)] else [])
      ensures old(Valid()) && (generated.Ok? ==> generated.value !in old(pending)) ==> Valid()
    {
      var key := KeyOf(req);
      if key in pathSettingToToken {
        return Ok(pathSettingToToken[key]);
      }
      if generated.Err? {
        return generated;
      }
      var token := generated.value;
      pending := pending[token := None];
      requests := requests[token := req];
      pathSettingToToken := pathSettingToToken[key := token];
      if broadcasting {
        broadcast := broadcast + [PromptOf(token, req)];
      }
      return Ok(token);
    }

    /** `Resolve`: puts the reply into the token's slot, failing for an
      * unknown token and for a slot that already holds a reply. */
    method Resolve(token: string, reply: PromptReply) returns (err: Option<string>)
      modifies this
      ensures requests == old(requests) && pathSettingToToken == old(pathSettingToToken)
      ensures broadcasting == old(broadcasting) && broadcast == old(broadcast)
      ensures token !in old(pending) ==>
                err == Some("unknown or expired token: " + token) && pending == old(pending)
      ensures token in old(pending) && old(pending)[token].Some? ==>
                err == Some("failed to deliver reply for token: " + token) && pending == old(pending)
      ensures token in old(pending) && old(pending)[token].None? ==>
                err == None && pending == old(pending)[token := Some(reply)]
      ensures old(Valid()) ==> Valid()
    {
      if token !in pending {
        return Some("unknown or expired token: " + token);
      }
      if pending[token].Some? {
        return Some("failed to deliver reply for token: " + token);
      }
      pending := pending[token := Some(reply)];
      return None;
    }

    /** `cleanup`: forgets the token, and the dedupe key of its request. */
    method Cleanup(token: string)
      modifies this
      ensures pending == old(pending) - {token} && requests == old(requests) - {token}
      ensures pathSettingToToken ==
                if token in old(requests) then old(pathSettingToToken) - {KeyOf(old(requests)[token])}
                else old(pathSettingToToken)
      ensures broadcasting == old(broadcasting) && broadcast == old(broadcast)
      ensures old(Valid()) ==> Valid()
    {
      if token in requests {
        pathSettingToToken := pathSettingToToken - {KeyOf(requests[token])};
      }
      pending := pending - {token};
      requests := requests - {token};
    }

    /** `Wait`: `ctxDone` says that the caller's deadline fires before a
      * reply is taken. An unknown token is an error; a timeout or a reply
      * removes the token; a reply with Cancel set is reported as
      * cancelled. */
    method Wait(token: string, ctxDone: bool) returns (r: WaitResult)
      modifies this
      ensures token !in old(pending) ==>
                r == Done(NoReply, Some("unknown token: " + token)) && unchanged(this)
      ensures token in old(pending) && !ctxDone && old(pending)[token].None? ==>
                r == Blocked && unchanged(this)
      ensures token in old(pending) && ctxDone ==>
                r == Done(NoReply, Some(Errdefs.ErrSecretPromptTimeout))
      ensures token in old(pending) && !ctxDone && old(pending)[token].Some? ==>
                var reply := old(pending)[token].value;
                r == Done(reply, if reply.Cancel then Some(Errdefs.ErrSecretPromptCancelled) else None)
      ensures r.Done? && token in old(pending) ==>
                pending == old(pending) - {token} && requests == old(requests) - {token}
                && pathSettingToToken ==
                     if token in old(requests) then old(pathSettingToToken) - {KeyOf(old(requests)[token])}
                     else old(pathSettingToToken)
      ensures broadcasting == old(broadcasting) && broadcast == old(broadcast)
      ensures old(Valid()) ==> Valid()
    {
      if token !in pending {
        return Done(NoReply, Some("unknown token: " + token));
      }
      if ctxDone {
        Cleanup(token);
        return Done(NoReply, Some(Errdefs.ErrSecretPromptTimeout));
      }
      var slot := pending[token];
      if slot.None? {
        return Blocked;
      }
      Cleanup(token);
      if slot.value.Cancel {
        return Done(slot.value, Some(Errdefs.ErrSecretPromptCancelled));
      }
      return Done(slot.value, None);
    }

    /** `Cancel`: resolves the pending prompt for this path and setting with
      * a cancel reply; with none pending it does nothing. */
    method Cancel(path: string, setting: string) returns (err: Option<string>)
      modifies this
      ensures var key := PathSettingKey(path, setting);
              key !in old(pathSettingToToken) ==> err == None && unchanged(this)
      ensures var key := PathSettingKey(path, setting);
              key in old(pathSettingToToken) && old(pathSettingToToken)[key] !in old(pending) ==>
                err == Some("unknown or expired token: " + old(pathSettingToToken)[key]) && pending == old(pending)
      ensures var key := PathSettingKey(path, setting);
              key in old(pathSettingToToken) && old(pathSettingToToken)[key] in old(pending)
              && old(pending)[old(pathSettingToToken)[key]].Some? ==>
                err == Some("failed to deliver reply for token: " + old(pathSettingToToken)[key])
                && pending == old(pending)
      ensures var key := PathSettingKey(path, setting);
              key in old(pathSettingToToken) && old(pathSettingToToken)[key] in old(pending)
              && old(pending)[old(pathSettingToToken)[key]].None? ==>
                err == None
                && pending == old(pending)[old(pathSettingToToken)[key] := Some(PromptReply(map[], false, true))]
      ensures requests == old(requests) && pathSettingToToken == old(pathSettingToToken)
      ensures broadcasting == old(broadcasting) && broadcast == old(broadcast)
      ensures old(Valid()) ==> Valid()
    {
      var key := PathSettingKey(path, setting);
      if key !in pathSettingToToken {
        return None;
      }
      err := Resolve(pathSettingToToken[key], PromptReply(map[], false, true));
    }
  }

  /** A prompt asked, answered and waited for leaves the broker as it was
    * and hands the answer to the waiting agent. */
  method AskResolveWait(b: SubscriptionBroker, req: PromptRequest, token: string, reply: PromptReply)
    returns (r: WaitResult)
    requires b.Valid() && !b.broadcasting
    requires KeyOf(req) !in b.pathSettingToToken && token !in b.pending
    modifies b
    ensures b.Valid()
    ensures r == Done(reply, if reply.Cancel then Some(Errdefs.ErrSecretPromptCancelled) else None)
    ensures b.pending == old(b.pending) && b.requests == old(b.requests)
    ensures b.pathSettingToToken == old(b.pathSettingToToken)
  {
    ghost var p0, q0, k0 := b.pending, b.requests, b.pathSettingToToken;
    AskResolve(b, req, token, reply);
    r := b.Wait(token, false);
    assert b.pending == p0 by { MapRestore(p0, token, Some(reply)); }
    assert b.requests == q0 by { MapRestore(q0, token, req); }
    assert b.pathSettingToToken == k0 by { MapRestore(k0, KeyOf(req), token); }
  }

  /** A prompt asked and answered: the token is pending with the reply in
    * its slot, under the request's key. */
  method AskResolve(b: SubscriptionBroker, req: PromptRequest, token: string, reply: PromptReply)
    requires b.Valid() && !b.broadcasting
    requires KeyOf(req) !in b.pathSettingToToken && token !in b.pending
    modifies b
    ensures b.Valid() && !b.broadcasting
    ensures b.pending == old(b.pending)[token := Some(reply)] && b.requests == old(b.requests)[token := req]
    ensures b.pathSettingToToken == old(b.pathSettingToToken)[KeyOf(req) := token]
  {
    var asked := b.Ask(req, Ok(token));
    var err := b.Resolve(token, reply);
  }

  /** Removing a key just added to a map that lacked it restores the map. */
  lemma MapRestore<K, V>(m: map<K, V>, k: K, v: V)
    requires k !in m
    ensures m[k := v] - {k} == m
  {
  }

  /** Asking twice for the same path and setting yields one token and one
    * pending prompt. */
  method AskTwice(b: SubscriptionBroker, req: PromptRequest, t1: string, t2: string)
    returns (r1: Result<string>, r2: Result<string>)
    requires b.Valid() && KeyOf(req) !in b.pathSettingToToken && t1 !in b.pending
    modifies b
    ensures r1 == r2 == Ok(t1)
    ensures b.pending == old(b.pending)[t1 := None]
  {
    r1 := b.Ask(req, Ok(t1));
    r2 := b.Ask(req, Ok(t2));
  }
}
