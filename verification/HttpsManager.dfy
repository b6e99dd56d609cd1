/** The HTTPS listener: src/httpsManager.ts.

`State` holds the module variables together with every server object ever created, so
that "at most one is listening" can be said. What the platform and the settings store do
during one call of `applyHttps` is an `Env`; calls do not overlap. */
module HttpsManager {
  import opened Wrappers

  datatype Server = Server(listening: bool, port: int, cert: string)

  /** `servers` are all servers created so far; `current` is `httpsServer`. */
  datatype State = State(
    servers: seq<Server>, current: Option<nat>, redirect: bool, httpsPort: int,
    certPem: Option<string>, appReady: bool)

  datatype Certs = CertsThrow | Missing | Certs(cert: string)
  datatype Start = CreateThrows | ListenThrows | ListenFails | Listens

  /** Whether the settings could be read and what they are; what resolving the certificates
      yields; whether `setSecureContext` succeeds; how starting a server ends; and the port
      the system picks when asked for port 0. */
  datatype Env = Env(
    settingsOk: bool, enabled: bool, port: int, redirectHttp: bool,
    certs: Certs, reloadOk: bool, start: Start, ephemeral: int)

  datatype Outcome = Rejected | Resolved(ok: bool)

  predicate WellFormed(s: State) { s.current.Some? ==> s.current.value < |s.servers| }

  predicate Listening(s: State) requires WellFormed(s) {
    s.current.Some? && s.servers[s.current.value].listening
  }

  function Serving(s: State): Server requires WellFormed(s) && Listening(s) {
    s.servers[s.current.value]
  }

  // ----- The operations on values

  /** `stopHttps` clears the cached certificate, unless there is no server at all. */
  function Stopped(s: State): (s': State)
    requires WellFormed(s)
    ensures WellFormed(s')
  {
    if s.current.None? then s
    else
      var id := s.current.value;
      s.(certPem := None, servers := s.servers[id := s.servers[id].(listening := false)], current := None)
  }

  /** `startHttps`; a throwing `createServer` leaves `httpsServer` as it was, a throwing `listen` (a port
      out of range) leaves the new server assigned. */
  function Started(s: State, cert: string, e: Env): (r: (State, Outcome))
    requires WellFormed(s)
    ensures WellFormed(r.0)
  {
    if !s.appReady then (s, Resolved(false))
    else if e.start.CreateThrows? then (s, Rejected)
    else
      var port := if e.port == 0 then e.ephemeral else e.port;
      (s.(servers := s.servers + [Server(e.start.Listens?, port, cert)], current := Some(|s.servers|)),
       if e.start.ListenThrows? then Rejected else Resolved(e.start.Listens?))
  }

  /** `setSecureContext` on the current server. */
  function Reloaded(s: State, cert: string): (s': State)
    requires WellFormed(s) && Listening(s)
    ensures WellFormed(s') && Listening(s')
  {
    s.(servers := s.servers[s.current.value := Serving(s).(cert := cert)])
  }

  /** The tail of `applyHttps`: start, then decide about redirecting. */
  function StartedFresh(s: State, cert: string, e: Env): (r: (State, Outcome))
    requires WellFormed(s)
    ensures WellFormed(r.0)
  {
    var (s', out) := Started(s, cert, e);
    if out.Rejected? then (s', out) else (s'.(redirect := e.redirectHttp && out.ok), out)
  }

  /** The part of `applyHttps` that has a certificate: hot reload, restart or start. */
  function Secured(s: State, cert: string, e: Env): (r: (State, Outcome))
    requires WellFormed(s)
    ensures WellFormed(r.0)
  {
    if !Listening(s) then StartedFresh(s, cert, e)
    else if !e.reloadOk then StartedFresh(Stopped(s), cert, e)
    else
      var s' := Reloaded(s, cert);
      if Serving(s').port != e.port then Started(Stopped(s'), cert, e)
      else (s'.(redirect := e.redirectHttp), Resolved(true))
  }

  function Applied(s: State, e: Env): (r: (State, Outcome))
    requires WellFormed(s)
    ensures WellFormed(r.0)
  {
    if !e.settingsOk then (s, Rejected)
    else
      var s1 := s.(httpsPort := e.port);
      if !e.enabled then (Stopped(s1.(redirect := false, certPem := None)), Resolved(true))
      else
        match e.certs
        case CertsThrow => (s1, Rejected)
        case Missing => (Stopped(s1.(certPem := None)), Resolved(false))
        case Certs(cert) => Secured(s1.(certPem := Some(cert)), cert, e)
  }

  // ----- What holds in every run

  /** Only the current server can be listening, and a cached certificate is the one served. */
  predicate Inv(s: State) {
    && WellFormed(s)
    && (forall i :: 0 <= i < |s.servers| && s.servers[i].listening ==> s.current == Some(i))
    && (Listening(s) && s.certPem.Some? ==> Serving(s).cert == s.certPem.value)
  }

  /** The part of the invariant that does not speak of the certificate. */
  predicate OnlyCurrentListens(s: State) {
    && WellFormed(s)
    && forall i :: 0 <= i < |s.servers| && s.servers[i].listening ==> s.current == Some(i)
  }

  lemma InvIsWellFormed(s: State)
    requires Inv(s)
    ensures WellFormed(s)
  {
  }

  lemma StopKeepsInv(s: State)
    requires OnlyCurrentListens(s)
    ensures Inv(Stopped(s)) && !Listening(Stopped(s))
    ensures s.current.Some? ==> Stopped(s).certPem.None?
  {
  }

  lemma StartKeepsInv(s: State, cert: string, e: Env)
    requires Inv(s) && !Listening(s) && (s.certPem.Some? ==> s.certPem.value == cert)
    ensures Inv(Started(s, cert, e).0) && Inv(StartedFresh(s, cert, e).0)
    ensures Started(s, cert, e).0.certPem == s.certPem == StartedFresh(s, cert, e).0.certPem
  {
    var s' := Started(s, cert, e).0;
    assert forall i :: 0 <= i < |s.servers| ==> !s.servers[i].listening && s'.servers[i] == s.servers[i];
  }

  lemma ApplyKeepsInv(s: State, e: Env)
    requires Inv(s)
    ensures Inv(Applied(s, e).0)
  {
    hide Stopped, Started, StartedFresh;
    if e.settingsOk {
      var s1 := s.(httpsPort := e.port);
      StopKeepsInv(s1.(redirect := false, certPem := None));
      StopKeepsInv(s1.(certPem := None));
      if e.enabled && e.certs.Certs? {
        var s2 := s1.(certPem := Some(e.certs.cert));
        StopKeepsInv(s2);
        if !Listening(s2) {
          StartKeepsInv(s2, e.certs.cert, e);
        } else {
          StopKeepsInv(Reloaded(s2, e.certs.cert));
          StartKeepsInv(Stopped(s2), e.certs.cert, e);
          StartKeepsInv(Stopped(Reloaded(s2, e.certs.cert)), e.certs.cert, e);
        }
      }
    }
  }

  function Run(s: State, es: seq<Env>): (s': State)
    requires WellFormed(s)
    ensures WellFormed(s')
    decreases |es|
  {
    if es == [] then s else Run(Applied(s, es[0]).0, es[1..])
  }

  /** The module variables at startup, once `initHttps` has set the app. */
  const INITIAL := State([], None, false, 3443, None, true)

  lemma {:induction false} RunKeepsInv(s: State, es: seq<Env>)
    requires Inv(s)
    ensures Inv(Run(s, es))
    decreases |es|
  {
    if es != [] {
      ApplyKeepsInv(s, es[0]);
      RunKeepsInv(Applied(s, es[0]).0, es[1..]);
    }
  }

  /** `getServerCertFingerprint`, given the fingerprint of a certificate (none if malformed). */
  function Fingerprint(s: State, hash: string -> Option<string>): Option<string>
    requires WellFormed(s)
  {
    if Listening(s) && s.certPem.Some? then hash(s.certPem.value) else None
  }

  /** In every run at most one server listens, and the fingerprint handed to agents is absent
      or that of the certificate being served. */
  lemma EveryRunIsSafe(es: seq<Env>, hash: string -> Option<string>, i: nat, j: nat)
    ensures
      var s := Run(INITIAL, es);
      && (i < |s.servers| && j < |s.servers| && s.servers[i].listening && s.servers[j].listening ==> i == j)
      && (Fingerprint(s, hash).Some? ==> Listening(s) && Fingerprint(s, hash) == hash(Serving(s).cert))
  {
    RunKeepsInv(INITIAL, es);
  }

  // ----- While a call is waiting

  /** `stopHttps` waiting for the close callback: still assigned, no longer listening. */
  function Closing(s: State): (s': State)
    requires WellFormed(s)
    ensures WellFormed(s')
  {
    if s.current.None? then s
    else
      var id := s.current.value;
      s.(certPem := None, servers := s.servers[id := s.servers[id].(listening := false)])
  }

  /** `startHttps` waiting for the new server to listen or fail. */
  function Starting(s: State, cert: string, e: Env): (s': State)
    requires WellFormed(s)
    ensures WellFormed(s')
  {
    if !s.appReady || e.start.CreateThrows? then s
    else s.(servers := s.servers + [Server(false, e.port, cert)], current := Some(|s.servers|))
  }

  /** What other requests can observe at the `await`s inside one call. */
  function AwaitPoints(s: State, e: Env): (points: seq<State>)
    requires WellFormed(s)
    ensures forall i :: 0 <= i < |points| ==> WellFormed(points[i])
  {
    if !e.settingsOk then [s]
    else
      var s1 := s.(httpsPort := e.port);
      if !e.enabled then [s, Closing(s1.(redirect := false, certPem := None))]
      else
        match e.certs
        case CertsThrow => [s, s1]
        case Missing => [s, s1, Closing(s1.(certPem := None))]
        case Certs(cert) =>
          var s2 := s1.(certPem := Some(cert));
          if !Listening(s2) then [s, s1, Starting(s2, cert, e)]
          else
            var s3 := if e.reloadOk then Reloaded(s2, cert) else s2;
            if e.reloadOk && Serving(s3).port == e.port then [s, s1]
            else [s, s1, Closing(s3), Starting(Stopped(s3), cert, e)]
  }

  lemma WaitingKeepsInv(s: State, cert: string, e: Env)
    requires OnlyCurrentListens(s)
    ensures Inv(Closing(s))
    ensures !Listening(s) ==> Inv(Starting(s, cert, e))
  {
  }

  /** The invariant, and so the fingerprint's correctness, holds at every await as well. */
  lemma AwaitPointsAreSafe(s: State, e: Env, i: nat)
    requires Inv(s) && i < |AwaitPoints(s, e)|
    ensures Inv(AwaitPoints(s, e)[i])
  {
    hide Closing, Starting, Stopped;
    var s1 := s.(httpsPort := e.port);
    WaitingKeepsInv(s1.(redirect := false, certPem := None), "", e);
    WaitingKeepsInv(s1.(certPem := None), "", e);
    if e.certs.Certs? {
      var cert, s2 := e.certs.cert, s1.(certPem := Some(e.certs.cert));
      WaitingKeepsInv(s2, cert, e);
      if Listening(s2) {
        var s3 := if e.reloadOk then Reloaded(s2, cert) else s2;
        WaitingKeepsInv(s3, cert, e);
        StopKeepsInv(s3);
        WaitingKeepsInv(Stopped(s3), cert, e);
      }
    }
  }

  // ----- Where the code falls short of its comments

  predicate PortAgrees(s: State) requires WellFormed(s) { Listening(s) ==> Serving(s).port == s.httpsPort }

  /** The call starts a server, afresh or in place of the one that listens. */
  predicate Starts(s: State, e: Env) requires WellFormed(s) {
    && e.settingsOk && e.enabled && e.certs.Certs? && s.appReady && e.start.Listens?
    && (!Listening(s) || Restarts(s, e))
  }

  /** The call has to replace a listening server: the port changed or the reload failed. */
  predicate Restarts(s: State, e: Env) requires WellFormed(s) {
    e.certs.Certs? && Listening(s) && (!e.reloadOk || Serving(s).port != e.port)
  }

  /** The call leaves a server listening elsewhere than `httpsPort` says: it failed to resolve the
      certificates under another port, which it had already noted, or the settings ask for port 0 and
      the system picked one. */
  predicate Misbinds(s: State, e: Env) requires WellFormed(s) {
    || (e.enabled && e.certs.CertsThrow? && Listening(s) && Serving(s).port != e.port)
    || (Starts(s, e) && e.port == 0 && e.ephemeral != 0)
  }

  lemma StartedPort(s: State, cert: string, e: Env)
    requires WellFormed(s) && !Listening(s) && s.httpsPort == e.port
    ensures
      var misbound := s.appReady && e.start.Listens? && e.port == 0 && e.ephemeral != 0;
      (PortAgrees(Started(s, cert, e).0) <==> !misbound) && (PortAgrees(StartedFresh(s, cert, e).0) <==> !misbound)
  {
  }

  /** After a call that read the settings the bound port is `httpsPort` unless the call misbound it; a
      call that did not leaves everything as it was. */
  lemma PortAgreesIff(s: State, e: Env)
    requires Inv(s)
    ensures PortAgrees(Applied(s, e).0) <==> if e.settingsOk then !Misbinds(s, e) else PortAgrees(s)
  {
    hide Started, StartedFresh;
    if e.settingsOk && e.enabled && e.certs.Certs? {
      var cert, s2 := e.certs.cert, s.(httpsPort := e.port, certPem := Some(e.certs.cert));
      if !Listening(s2) {
        StartedPort(s2, cert, e);
      } else {
        StopKeepsInv(s2);
        StopKeepsInv(Reloaded(s2, cert));
        StartedPort(Stopped(s2), cert, e);
        StartedPort(Stopped(Reloaded(s2, cert)), cert, e);
      }
    }
  }

  lemma {:induction false} RunSnoc(s: State, es: seq<Env>)
    requires WellFormed(s) && es != []
    ensures Run(s, es) == Applied(Run(s, es[..|es| - 1]), es[|es| - 1]).0
    decreases |es|
  {
    hide Applied, WellFormed;
    var n := |es| - 1;
    if n > 0 {
      var s1, rest, front := Applied(s, es[0]).0, es[1..], es[..n];
      RunSnoc(s1, rest);
      assert front[1..] == rest[..n - 1] && front[0] == es[0] && rest[n - 1] == es[n];
    }
  }

  /** The last call that read the settings. */
  function LastRead(es: seq<Env>): (i: Option<nat>)
    ensures i.Some? ==> i.value < |es|
  {
    if es == [] then None
    else if es[|es| - 1].settingsOk then Some(|es| - 1)
    else LastRead(es[..|es| - 1])
  }

  /** After every run, the bound port is `httpsPort` if and only if the last call that read the settings
      did not misbind. */
  lemma {:induction false} PortAgreesAfterRunIff(es: seq<Env>)
    ensures
      var last := LastRead(es);
      PortAgrees(Run(INITIAL, es)) <==> last.Some? ==> !Misbinds(Run(INITIAL, es[..last.value]), es[last.value])
    decreases |es|
  {
    hide Applied, Run, Misbinds;
    if es == [] {
      RunNone();
    } else {
      var n := |es| - 1;
      RunSnoc(INITIAL, es);
      RunKeepsInv(INITIAL, es[..n]);
      PortAgreesIff(Run(INITIAL, es[..n]), es[n]);
      if !es[n].settingsOk {
        PortAgreesAfterRunIff(es[..n]);
        var last := LastRead(es[..n]);
        if last.Some? { assert es[..n][..last.value] == es[..last.value]; }
      }
    }
  }

  lemma RunNone()
    ensures Run(INITIAL, []) == INITIAL
  {
  }

  /** In particular the port agrees after every call that resolves, unless it asked for port 0. */
  lemma ResolvedPortAgrees(s: State, e: Env)
    requires Inv(s) && Applied(s, e).1.Resolved?
    ensures PortAgrees(Applied(s, e).0) <==> !(Starts(s, e) && e.port == 0 && e.ephemeral != 0)
  {
    PortAgreesIff(s, e);
  }

  /** A server listens and no certificate is cached: agents get no fingerprint. */
  predicate Lost(s: State) requires WellFormed(s) { Listening(s) && s.certPem.None? }

  /** The call came as far as its decision about the server. */
  predicate Acts(e: Env) { e.settingsOk && !(e.enabled && e.certs.CertsThrow?) }

  lemma StartedLost(s: State, cert: string, e: Env)
    requires WellFormed(s) && !Listening(s)
    ensures
      var listens := s.appReady && e.start.Listens?;
      && (Lost(Started(s, cert, e).0) <==> listens && s.certPem.None?)
      && (Lost(StartedFresh(s, cert, e).0) <==> listens && s.certPem.None?)
  {
  }

  /** A call that acts loses the fingerprint exactly when it restarts the server: stopping clears the
      cache and nothing fills it again. Any other call leaves it as it was. */
  lemma FingerprintLostIff(s: State, e: Env)
    requires Inv(s)
    ensures Lost(Applied(s, e).0) <==> if Acts(e) then Starts(s, e) && Restarts(s, e) else Lost(s)
  {
    hide Started, StartedFresh;
    if e.settingsOk && e.enabled && e.certs.Certs? {
      var cert, s2 := e.certs.cert, s.(httpsPort := e.port, certPem := Some(e.certs.cert));
      if !Listening(s2) {
        StartedLost(s2, cert, e);
      } else {
        StopKeepsInv(s2);
        StopKeepsInv(Reloaded(s2, cert));
        StartedLost(Stopped(s2), cert, e);
        StartedLost(Stopped(Reloaded(s2, cert)), cert, e);
      }
    }
  }

  function LastActed(es: seq<Env>): (i: Option<nat>)
    ensures i.Some? ==> i.value < |es|
  {
    if es == [] then None
    else if Acts(es[|es| - 1]) then Some(|es| - 1)
    else LastActed(es[..|es| - 1])
  }

  /** After every run, the listening server lacks its fingerprint if and only if the last call that acted
      restarted it. */
  lemma {:induction false} FingerprintLostAfterRunIff(es: seq<Env>)
    ensures
      var last := LastActed(es);
      Lost(Run(INITIAL, es)) <==>
        && last.Some?
        && var s := Run(INITIAL, es[..last.value]);
           Starts(s, es[last.value]) && Restarts(s, es[last.value])
    decreases |es|
  {
    hide Applied, Run, Starts, Restarts, Acts;
    if es == [] {
      RunNone();
    } else {
      var n := |es| - 1;
      RunSnoc(INITIAL, es);
      RunKeepsInv(INITIAL, es[..n]);
      FingerprintLostIff(Run(INITIAL, es[..n]), es[n]);
      if !Acts(es[n]) {
        FingerprintLostAfterRunIff(es[..n]);
        var last := LastActed(es[..n]);
        if last.Some? { assert es[..n][..last.value] == es[..last.value]; }
      }
    }
  }

  // ----- What is served

  /** The call leaves the server that listens in place. */
  predicate KeepsServer(s: State, e: Env) requires WellFormed(s) {
    e.enabled && e.certs.Certs? && Listening(s) && !Restarts(s, e)
  }

  lemma StartedServes(s: State, cert: string, e: Env)
    requires WellFormed(s) && !Listening(s)
    ensures
      var t, u := Started(s, cert, e).0, StartedFresh(s, cert, e).0;
      && (Listening(t) <==> s.appReady && e.start.Listens?) && (Listening(u) <==> Listening(t))
      && (Listening(t) ==> Serving(t) == Serving(u) == Server(true, if e.port == 0 then e.ephemeral else e.port, cert))
  {
  }

  /** After a call that acted, a server listens exactly if the call kept one or started one, and it serves
      the certificate of this very call: fresh start, hot reload and both restarts. A call that did not act
      leaves the server as it was. */
  lemma ServedIs(s: State, e: Env)
    requires Inv(s)
    ensures
      var t := Applied(s, e).0;
      if !Acts(e) then t.servers == s.servers && t.current == s.current
      else
        && (Listening(t) <==> KeepsServer(s, e) || Starts(s, e))
        && (Listening(t) ==> e.enabled && e.certs.Certs? && Serving(t).cert == e.certs.cert)
        && (Listening(t) && KeepsServer(s, e) ==> t.current == s.current && Serving(t).port == Serving(s).port)
        && (Listening(t) && Starts(s, e) ==> Serving(t).port == if e.port == 0 then e.ephemeral else e.port)
  {
    hide Started, StartedFresh;
    if e.settingsOk && e.enabled && e.certs.Certs? {
      var cert, s2 := e.certs.cert, s.(httpsPort := e.port, certPem := Some(e.certs.cert));
      if !Listening(s2) {
        StartedServes(s2, cert, e);
      } else {
        StopKeepsInv(s2);
        StopKeepsInv(Reloaded(s2, cert));
        StartedServes(Stopped(s2), cert, e);
        StartedServes(Stopped(Reloaded(s2, cert)), cert, e);
      }
    }
  }

  /** How a call ends: it throws exactly if the settings or certificates cannot be read, or a server that it
      has to start throws; otherwise it reports success exactly if HTTPS is disabled or a server listens. */
  lemma OutcomeIs(s: State, e: Env)
    requires WellFormed(s)
    ensures
      var t, out := Applied(s, e).0, Applied(s, e).1;
      && (out.Rejected? <==>
            || !e.settingsOk
            || (e.enabled && e.certs.CertsThrow?)
            || (e.enabled && e.certs.Certs? && s.appReady && !KeepsServer(s, e)
                && (e.start.CreateThrows? || e.start.ListenThrows?)))
      && (out.Resolved? ==> (out.ok <==> !e.enabled || Listening(t)))
  {
  }

  /** After every run, whatever listens serves the certificate of the last call that acted; if that call
      found HTTPS disabled or no certificate, nothing listens. */
  lemma {:induction false} ServedAfterRun(es: seq<Env>)
    ensures
      var s, last := Run(INITIAL, es), LastActed(es);
      && (Listening(s) ==> last.Some?)
      && (last.Some? && Listening(s) ==>
            var e := es[last.value];
            e.enabled && e.certs.Certs? && Serving(s).cert == e.certs.cert)
    decreases |es|
  {
    hide Applied, Run, Starts, Restarts, Acts, KeepsServer;
    if es == [] {
      RunNone();
    } else {
      var n := |es| - 1;
      RunSnoc(INITIAL, es);
      RunKeepsInv(INITIAL, es[..n]);
      ServedIs(Run(INITIAL, es[..n]), es[n]);
      if !Acts(es[n]) { ServedAfterRun(es[..n]); }
    }
  }

  // ----- Redirects

  /** What the middleware looks at: whether the request came over HTTPS, by itself or through a proxy, and
      whether it is for the API. */
  datatype Request = Request(secure: bool, forwardedHttps: bool, api: bool)

  /** `httpsRedirectMiddleware`: the port it redirects to, if it does. */
  function RedirectsTo(s: State, req: Request): Option<int>
    requires WellFormed(s)
  {
    if !s.redirect || !Listening(s) then None
    else if req.secure || req.forwardedHttps || req.api then None
    else Some(s.httpsPort)
  }

  /** `getHttpsPort` */
  function GetHttpsPort(s: State): Option<int>
    requires WellFormed(s)
  {
    if Listening(s) then Some(s.httpsPort) else None
  }

  /** After every run a request is redirected only if a server listens that it can reach, never if it is
      secure already or for the API; the port is the one handed to agents, and the one bound if and only if
      the last call that read the settings did not misbind. After a call that found HTTPS disabled or
      without a certificate nothing is redirected. */
  lemma RedirectsAreSound(es: seq<Env>, req: Request)
    ensures
      var s, last := Run(INITIAL, es), LastRead(es);
      && (RedirectsTo(s, req).Some? ==>
            && Listening(s) && !req.secure && !req.forwardedHttps && !req.api
            && RedirectsTo(s, req) == GetHttpsPort(s)
            && (RedirectsTo(s, req).value == Serving(s).port <==>
                  last.Some? ==> !Misbinds(Run(INITIAL, es[..last.value]), es[last.value])))
      && (GetHttpsPort(s).Some? <==> Listening(s))
      && (es != [] && Acts(es[|es| - 1]) && !(es[|es| - 1].enabled && es[|es| - 1].certs.Certs?) ==>
            RedirectsTo(s, req).None? && GetHttpsPort(s).None?)
  {
    hide Run, Misbinds;
    PortAgreesAfterRunIff(es);
    ServedAfterRun(es);
  }

  /** The redirect choice after a call, in all cases: kept by a call that fails early, finds no certificate,
      changes the port or throws while starting; cleared by a call that finds HTTPS disabled; else that of
      the settings, given that a server listens. */
  lemma RedirectChoiceIs(s: State, e: Env)
    requires Inv(s)
    ensures
      var t, out := Applied(s, e).0, Applied(s, e).1;
      var kept := !Acts(e) || (e.enabled && e.certs.Missing?) || out.Rejected?
                  || (e.enabled && Listening(s) && e.reloadOk && Serving(s).port != e.port);
      if !kept && !e.enabled then !t.redirect
      else if kept then t.redirect == s.redirect
      else t.redirect <==> e.redirectHttp && Listening(t)
  {
    hide Started, StartedFresh;
    if e.settingsOk && e.enabled && e.certs.Certs? {
      var cert, s2 := e.certs.cert, s.(httpsPort := e.port, certPem := Some(e.certs.cert));
      StartedChoice(s2, cert, e);
      if Listening(s2) {
        StopKeepsInv(s2);
        StartedChoice(Stopped(s2), cert, e);
        StartedChoice(Stopped(Reloaded(s2, cert)), cert, e);
      }
    }
  }

  lemma StartedChoice(s: State, cert: string, e: Env)
    requires WellFormed(s)
    ensures Started(s, cert, e).0.redirect == s.redirect
    ensures
      var (t, out) := StartedFresh(s, cert, e);
      if out.Rejected? then t.redirect == s.redirect
      else !Listening(s) ==> (t.redirect <==> e.redirectHttp && Listening(t))
  {
  }

  /** After a call that leaves a server listening, redirecting follows the settings, except
      after a port change, which leaves the old choice in place. */
  lemma RedirectFollowsSettingsIff(s: State, e: Env)
    requires Inv(s) && e.settingsOk && Applied(s, e).1.Resolved? && Listening(Applied(s, e).0)
    ensures Applied(s, e).0.redirect == e.redirectHttp <==>
      !(Listening(s) && e.reloadOk && Serving(s).port != e.port) || s.redirect == e.redirectHttp
  {
    hide Started, StartedFresh;
    if e.enabled && e.certs.Certs? {
      var s2 := s.(httpsPort := e.port, certPem := Some(e.certs.cert));
      StartedRedirect(s2, e.certs.cert, e);
      if Listening(s2) {
        StartedRedirect(Stopped(s2), e.certs.cert, e);
        StartedRedirect(Stopped(Reloaded(s2, e.certs.cert)), e.certs.cert, e);
      }
    }
  }

  lemma StartedRedirect(s: State, cert: string, e: Env)
    requires WellFormed(s)
    ensures Started(s, cert, e).0.redirect == s.redirect
    ensures Listening(StartedFresh(s, cert, e).0) && !Listening(s) && StartedFresh(s, cert, e).1.Resolved? ==>
      StartedFresh(s, cert, e).0.redirect == e.redirectHttp
  {
  }

  lemma RunTwo(e: Env, e': Env)
    ensures Run(INITIAL, [e, e']) == Applied(Applied(INITIAL, e).0, e').0
  {
    hide Applied;
    assert [e, e'][1..] == [e'] && [e'][1..] == [];
    var s := Applied(INITIAL, e).0;
    assert Run(Applied(s, e').0, []) == Applied(s, e').0;
  }

  /** Settings under which everything works. */
  function Good(port: int, redirectHttp: bool): Env {
    Env(true, true, port, redirectHttp, Certs("cert"), true, Listens, 0)
  }

  /** The port disagrees: certificates cannot be resolved when the settings name another port. */
  lemma PortDisagrees()
    ensures
      var s := Run(INITIAL, [Good(8443, true), Good(9443, true).(certs := CertsThrow)]);
      Listening(s) && Serving(s).port == 8443 && s.httpsPort == 9443
  {
    RunTwo(Good(8443, true), Good(9443, true).(certs := CertsThrow));
  }

  /** Settings that ask for port 0: the server listens where the system put it. */
  lemma PortZeroDisagrees()
    ensures
      var s := Run(INITIAL, [Good(0, true).(ephemeral := 50000)]);
      Listening(s) && Serving(s).port == 50000 && s.httpsPort == 0
  {
    var e := Good(0, true).(ephemeral := 50000);
    assert [e][1..] == [];
    assert Run(Applied(INITIAL, e).0, []) == Applied(INITIAL, e).0;
  }

  /** A port change: the new server listens without a cached certificate, so agents get no
      fingerprint, and it redirects although the settings no longer say so. */
  lemma PortChangeLosesState()
    ensures
      var s := Run(INITIAL, [Good(8443, true), Good(9443, false)]);
      Listening(s) && Serving(s).port == 9443 && s.certPem.None? && s.redirect
  {
    RunTwo(Good(8443, true), Good(9443, false));
  }

  /** A later successful reload repairs the fingerprint. */
  lemma ReloadRepairsFingerprint(s: State, e: Env)
    requires Inv(s) && Listening(s) && e.settingsOk && e.enabled && e.certs.Certs? && e.reloadOk
    requires Serving(s).port == e.port
    ensures
      var s' := Applied(s, e).0;
      Listening(s') && s'.certPem == Some(e.certs.cert) && Serving(s').cert == e.certs.cert
      && s'.current == s.current
  {
  }

  // ----- The module

  class Manager {
    var servers: seq<Server>
    var httpsServer: Option<nat>
    var redirectEnabled: bool
    var httpsPort: int
    var currentCertPem: Option<string>
    var appReady: bool

    function Model(): State reads this {
      State(servers, httpsServer, redirectEnabled, httpsPort, currentCertPem, appReady)
    }

    constructor ()
      ensures Model() == INITIAL && Inv(Model())
    {
      servers, httpsServer, redirectEnabled, httpsPort, currentCertPem, appReady := [], None, false, 3443, None, true;
    }

    method StopHttps()
      requires WellFormed(Model())
      modifies this
      ensures Model() == Stopped(old(Model()))
    {
      if httpsServer.None? { return; }
      currentCertPem := None;
      var id := httpsServer.value;
      servers := servers[id := servers[id].(listening := false)];
      httpsServer := None;
    }

    method StartHttps(cert: string, e: Env) returns (out: Outcome)
      requires WellFormed(Model())
      modifies this
      ensures (Model(), out) == Started(old(Model()), cert, e)
    {
      if !appReady { return Resolved(false); }
      if e.start.CreateThrows? { return Rejected; }
      servers := servers + [Server(e.start.Listens?, if e.port == 0 then e.ephemeral else e.port, cert)];
      httpsServer := Some(|servers| - 1);
      if e.start.ListenThrows? { return Rejected; }
      return Resolved(e.start.Listens?);
    }

    method ApplyHttps(e: Env) returns (out: Outcome)
      requires Inv(Model())
      modifies this
      ensures (Model(), out) == Applied(old(Model()), e)
      ensures Inv(Model())
    {
      hide Stopped, Secured, Inv;
      ApplyKeepsInv(Model(), e);
      assert WellFormed(Model()) by { InvIsWellFormed(Model()); }
      if !e.settingsOk { return Rejected; }
      httpsPort := e.port;
      if !e.enabled {
        redirectEnabled := false;
        currentCertPem := None;
        StopHttps();
        return Resolved(true);
      }
      if e.certs.CertsThrow? { return Rejected; }
      if e.certs.Missing? {
        currentCertPem := None;
        StopHttps();
        return Resolved(false);
      }
      currentCertPem := Some(e.certs.cert);
      out := UseCertificate(e.certs.cert, e);
    }

    /** The rest of `applyHttps` once a certificate is cached. */
    method UseCertificate(cert: string, e: Env) returns (out: Outcome)
      requires WellFormed(Model())
      modifies this
      ensures (Model(), out) == Secured(old(Model()), cert, e)
    {
      hide Stopped, Started;
      if httpsServer.Some? && servers[httpsServer.value].listening {
        if e.reloadOk {
          var id := httpsServer.value;
          servers := servers[id := servers[id].(cert := cert)];
          if servers[id].port != e.port {
            StopHttps();
            out := StartHttps(cert, e);
            return;
          }
          redirectEnabled := e.redirectHttp;
          return Resolved(true);
        }
        StopHttps();
      }
      out := StartHttps(cert, e);
      if out.Resolved? { redirectEnabled := e.redirectHttp && out.ok; }
    }
  }
}
