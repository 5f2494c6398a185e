/**
The credential sidecar's runtime. Its proxy lanes are fixed when they start;
the credential bundle behind them is replaced at any time. Bring-up has many
stages, and each stage's failure has its own teardown.
*/
module SidecarRuntime {
  import opened Wrappers

  /** base is the canonical web base of the GitHub the tokens are for, empty when they name none. */
  datatype GitHubCreds = GitHubCreds(base: string, token: string)

  datatype JiraCreds = JiraCreds(site: string, secret: string)

  /** An unsealed bundle: its two credential halves and what its source manifest says. */
  datatype Bundle = Bundle(
    github: Option<GitHubCreds>, jira: Option<JiraCreds>, jiraUsable: bool, jiraSealed: bool, linearUsable: bool)

  /** What a server forwards to. */
  datatype Lane =
    | RunProxies(base: string, git: bool) // LLM and egress, and git when asked for
    | GitHubApi(base: string)
    | JiraApi(site: string)
    | LinearApi
    | Injector(base: string, shared: bool) // shared: on the listener the broker handed down
    | AgentHost

  datatype Server = Server(id: nat, lane: Lane)

  datatype Request = Request(git: bool, githubApi: bool, ghChannel: bool, agentHost: bool, conversation: bool)

  /** How each stage of a bring-up turns out. */
  datatype Stages = Stages(
    run: bool, github: bool, jira: bool, linear: bool, injector: bool, files: bool, agentHost: bool)

  predicate GitHubLane(lane: Lane) {
    lane.RunProxies? || lane.GitHubApi? || lane.Injector?
  }

  /** The two GitHub upstreams, both derived from one base. */
  function GitHubUpstream(b: Bundle, defaultBase: string): Option<string> {
    if b.github.None? then Some(defaultBase)
    else if b.github.value.base == "" then None
    else Some(b.github.value.base)
  }

  predicate JiraWanted(b: Bundle) {
    b.jiraUsable && b.jira.Some? && b.jira.value.site != ""
  }

  predicate InjectorWanted(req: Request) {
    req.ghChannel && req.agentHost && req.conversation
  }

  /** Every REST proxy wanted starts; the Jira one also needs the bundle held by then to carry Jira. */
  predicate ApisStart(req: Request, b: Bundle, later: Bundle, stages: Stages) {
    && (req.githubApi ==> stages.github)
    && (JiraWanted(b) ==> stages.jira && later.jira.Some?)
    && (b.linearUsable ==> stages.linear)
  }

  predicate JailStarts(req: Request, stages: Stages) {
    && (InjectorWanted(req) ==> stages.injector)
    && (req.agentHost && req.conversation ==> stages.files)
    && (req.agentHost ==> stages.agentHost)
  }

  /** A server on the handed-down listener, which its Shutdown closes. */
  predicate OnOrigin(s: Option<Server>) {
    s.Some? && s.value.lane.Injector? && s.value.lane.shared
  }

  class CredRuntime {
    const defaultBase: string
    const sharedOrigin: bool
    var bundle: Option<Bundle>
    var githubBase: string
    var jiraBase: string
    var proxies: Option<Server>
    var githubAPI: Option<Server>
    var jiraAPI: Option<Server>
    var linearAPI: Option<Server>
    var ghInjector: Option<Server>
    var agentHost: Option<Server>
    var proxied: bool
    var open: set<Server> // the servers listening now
    var originOpen: bool // the handed-down listener is still held
    var nextId: nat

    constructor (defaultBase: string, sharedOrigin: bool)
      ensures Valid() && open == {} && bundle.None? && !proxied && originOpen == sharedOrigin
      ensures this.defaultBase == defaultBase && this.sharedOrigin == sharedOrigin
    {
      this.defaultBase, this.sharedOrigin, originOpen := defaultBase, sharedOrigin, sharedOrigin;
      bundle, githubBase, jiraBase, proxied, open, nextId := None, "", "", false, {}, 0;
      proxies, githubAPI, jiraAPI, linearAPI, ghInjector, agentHost := None, None, None, None, None, None;
    }

    ghost function Recorded(): set<Option<Server>>
      reads this
    {
      {proxies, githubAPI, jiraAPI, linearAPI, ghInjector, agentHost}
    }

    /** Every open GitHub lane forwards to githubBase, every open Jira lane to jiraBase. */
    ghost predicate Aligned()
      reads this
    {
      forall s :: s in open ==>
        (GitHubLane(s.lane) ==> s.lane.base == githubBase) && (s.lane.JiraApi? ==> s.lane.site == jiraBase)
    }

    ghost predicate Valid()
      reads this
    {
      && Aligned()
      && (forall s :: s in open ==> s.id < nextId)
      && (!proxied ==> open == {})
      && (forall s :: s in open ==> Some(s) in Recorded())
      && (ghInjector.Some? ==> ghInjector.value.lane.Injector? && ghInjector.value.lane.shared == sharedOrigin)
      && (originOpen ==> sharedOrigin)
    }

    /** A re-seal: the newest bundle replaces the held one, or an unreadable one changes nothing. */
    method AcceptSealedBundle(unsealed: Option<Bundle>)
      requires Valid()
      modifies this`bundle
      ensures Valid() && bundle == if unsealed.Some? then unsealed else old(bundle)
    {
      if unsealed.Some? {
        bundle := unsealed;
      }
    }

    /** The held GitHub half, when it was resolved for the GitHub the open lanes forward to. */
    method HeldGitHub() returns (creds: Option<GitHubCreds>, ok: bool)
      requires Valid()
      ensures ok <==> bundle.Some?
      ensures creds.Some? <==> ok && bundle.value.github.Some?
                               && bundle.value.github.value.base != "" && bundle.value.github.value.base == githubBase
      ensures creds.Some? ==> creds == bundle.value.github
      ensures creds.Some? ==> forall s :: s in open && GitHubLane(s.lane) ==> s.lane.base == creds.value.base
    {
      if bundle.None? {
        return None, false;
      }
      creds, ok := bundle.value.github, true;
      if creds.Some? && (creds.value.base == "" || creds.value.base != githubBase) {
        creds := None;
      }
    }

    /** The Jira header's credential, only for the site the open Jira lane forwards to. */
    method JiraAuthHeader() returns (creds: Option<JiraCreds>)
      requires Valid()
      ensures creds.Some? <==> bundle.Some? && bundle.value.jiraSealed && bundle.value.jira.Some?
                               && bundle.value.jira.value.site == jiraBase
      ensures creds.Some? ==> creds == bundle.value.jira
      ensures creds.Some? ==> forall s :: s in open && s.lane.JiraApi? ==> s.lane.site == creds.value.site
    {
      creds := None;
      if bundle.Some? && bundle.value.jiraSealed && bundle.value.jira.Some? {
        if bundle.value.jira.value.site == jiraBase {
          creds := bundle.value.jira;
        }
      }
    }

    // ----------------------------------------------------------------
    // Bring-up
    // ----------------------------------------------------------------

    /** One server, listening if it starts. */
    method Listen(lane: Lane, starts: bool) returns (s: Option<Server>)
      modifies this`open, this`nextId
      ensures s.Some? <==> starts
      ensures starts ==> s.value == Server(old(nextId), lane) && open == old(open) + {s.value} && nextId == old(nextId) + 1
      ensures !starts ==> open == old(open) && nextId == old(nextId)
    {
      s := None;
      if starts {
        s := Some(Server(nextId, lane));
        open := open + {s.value};
        nextId := nextId + 1;
      }
    }

    /** Shuts each given server down; the injector's Shutdown closes the listener it serves. */
    method Stop(servers: seq<Option<Server>>)
      modifies this`open, this`originOpen
      ensures open == old(open) - set s | s in old(open) && Some(s) in servers
      ensures originOpen == (old(originOpen) && !(exists i :: 0 <= i < |servers| && OnOrigin(servers[i])))
    {
      ghost var was := open;
      for n := 0 to |servers|
        invariant open == was - set s | s in was && Some(s) in servers[..n]
        invariant originOpen == (old(originOpen) && !(exists i :: 0 <= i < n && OnOrigin(servers[i])))
      {
        assert servers[..n + 1] == servers[..n] + [servers[n]];
        if servers[n].Some? {
          open := open - {servers[n].value};
          if servers[n].value.lane.Injector? && servers[n].value.lane.shared {
            originOpen := false;
          }
        }
      }
      assert servers[..|servers|] == servers;
    }

    /** What every stage after the run's own proxies keeps: all that is open was started here and is at hand. */
    ghost predicate Rising(handle: Server, reached: set<Option<Server>>)
      reads this
    {
      && !proxied && Aligned() && handle.lane.RunProxies?
      && (forall s :: s in open ==> s.id < nextId && (s == handle || Some(s) in reached))
      && (ghInjector.Some? ==> ghInjector.value.lane.Injector? && ghInjector.value.lane.shared == sharedOrigin)
      && (originOpen ==> sharedOrigin)
    }

    /** The GitHub REST proxy, on request. */
    method StartGitHubApi(handle: Server, wanted: bool, starts: bool) returns (ok: bool)
      requires Rising(handle, {}) && open == {handle}
      modifies this`open, this`nextId, this`githubAPI, this`originOpen
      ensures Rising(handle, {githubAPI})
      ensures ok <==> wanted ==> starts
      ensures !ok ==> open == {}
      ensures ok ==> handle in open && (wanted ==> githubAPI.Some? && githubAPI.value in open && githubAPI.value.lane == GitHubApi(githubBase))
      ensures forall s :: s in open ==> GitHubLane(s.lane)
    {
      ok := true;
      if wanted {
        var s := Listen(GitHubApi(githubBase), starts);
        if s.None? {
          Stop([Some(handle)]);
          return false;
        }
        githubAPI := s;
      }
    }

    /** The Jira proxy, for a bundle that names a usable site. */
    method StartJiraApi(handle: Server, wanted: bool, starts: bool) returns (ok: bool)
      requires Rising(handle, {githubAPI}) && forall s :: s in open ==> GitHubLane(s.lane)
      modifies this`open, this`nextId, this`jiraAPI, this`jiraBase, this`originOpen
      ensures Rising(handle, {githubAPI, jiraAPI})
      ensures ok <==> wanted ==> starts && bundle.Some? && bundle.value.jira.Some?
      ensures !ok ==> open == {}
      ensures ok ==> (wanted ==> jiraAPI.Some? && jiraAPI.value in open && jiraAPI.value.lane == JiraApi(jiraBase)) && forall s :: s in old(open) ==> s in open
    {
      ok := true;
      if wanted {
        var s := StartJira(starts);
        if s.None? {
          Stop([Some(handle), githubAPI]);
          return false;
        }
        jiraAPI := s;
      }
    }

    /** The Linear proxy, for a bundle whose manifest names it usable. */
    method StartLinearApi(handle: Server, wanted: bool, starts: bool) returns (ok: bool)
      requires Rising(handle, {githubAPI, jiraAPI})
      modifies this`open, this`nextId, this`linearAPI, this`originOpen
      ensures Rising(handle, {githubAPI, jiraAPI, linearAPI})
      ensures ok <==> wanted ==> starts
      ensures !ok ==> open == {}
      ensures ok ==> (wanted ==> linearAPI.Some? && linearAPI.value in open && linearAPI.value.lane == LinearApi) && forall s :: s in old(open) ==> s in open
    {
      ok := true;
      if wanted {
        var s := Listen(LinearApi, starts);
        if s.None? {
          Stop([Some(handle), githubAPI, jiraAPI]);
          return false;
        }
        linearAPI := s;
      }
    }

    /** The Jira proxy forwards to the site of the bundle held when it starts, which a re-seal may just have replaced. */
    method StartJira(starts: bool) returns (s: Option<Server>)
      requires forall t :: t in open ==> !t.lane.JiraApi?
      modifies this`open, this`nextId, this`jiraBase
      ensures s.Some? <==> starts && bundle.Some? && bundle.value.jira.Some?
      ensures s.Some? ==> s.value == Server(old(nextId), JiraApi(jiraBase)) && open == old(open) + {s.value}
                          && nextId == old(nextId) + 1 && jiraBase == bundle.value.jira.value.site
      ensures s.None? ==> open == old(open) && nextId == old(nextId)
    {
      if bundle.None? || bundle.value.jira.None? {
        return None;
      }
      jiraBase := bundle.value.jira.value.site;
      s := Listen(JiraApi(jiraBase), starts);
    }

    /** The three REST proxies in turn; a re-seal may arrive before the Jira one reads the bundle. */
    method StartApis(handle: Server, req: Request, b: Bundle, reseal: Option<Bundle>, stages: Stages)
      returns (ok: bool)
      requires Rising(handle, {}) && open == {handle}
      modifies this`open, this`nextId, this`githubAPI, this`jiraAPI, this`jiraBase, this`linearAPI, this`originOpen,
               this`bundle
      requires bundle.Some?
      ensures Rising(handle, {githubAPI, jiraAPI, linearAPI})
      ensures ok <==> ApisStart(req, b, if reseal.Some? then reseal.value else old(bundle).value, stages)
      ensures !ok ==> open == {}
      ensures ok ==> handle in open && ApisUp(req, b)
    {
      ok := StartGitHubApi(handle, req.githubApi, stages.github);
      if !ok {
        return;
      }
      if reseal.Some? {
        bundle := reseal;
      }
      ok := StartJiraApi(handle, JiraWanted(b), stages.jira);
      if !ok {
        return;
      }
      ok := StartLinearApi(handle, b.linearUsable, stages.linear);
    }

    /** Every REST proxy the request and the bundle ask for is listening. */
    ghost predicate ApisUp(req: Request, b: Bundle)
      reads this
    {
      && (req.githubApi ==> githubAPI.Some? && githubAPI.value in open && githubAPI.value.lane == GitHubApi(githubBase))
      && (JiraWanted(b) ==> jiraAPI.Some? && jiraAPI.value in open && jiraAPI.value.lane == JiraApi(jiraBase))
      && (b.linearUsable ==> linearAPI.Some? && linearAPI.value in open && linearAPI.value.lane == LinearApi)
    }

    /** The channel into the jail is listening, if it was asked for. */
    ghost predicate JailUp(req: Request)
      reads this
    {
      && (InjectorWanted(req) ==>
            ghInjector.Some? && ghInjector.value in open && ghInjector.value.lane == Injector(githubBase, sharedOrigin))
      && (req.agentHost ==> agentHost.Some? && agentHost.value in open && agentHost.value.lane == AgentHost)
    }

    /** The gh injector, on the shared origin when there is one. */
    method StartInjector(handle: Server, starts: bool) returns (ok: bool)
      requires Rising(handle, {githubAPI, jiraAPI, linearAPI})
      modifies this`open, this`nextId, this`ghInjector, this`originOpen
      ensures Rising(handle, {githubAPI, jiraAPI, linearAPI, ghInjector})
      ensures ok <==> starts
      ensures !ok ==> open == {}
      ensures ok ==> ghInjector.Some? && ghInjector.value in open
                     && ghInjector.value.lane == Injector(githubBase, sharedOrigin) && forall s :: s in old(open) ==> s in open
    {
      var s := Listen(Injector(githubBase, sharedOrigin), starts);
      if s.None? {
        Stop([Some(handle), githubAPI, jiraAPI, linearAPI]);
        return false;
      }
      ghInjector := s;
      ok := true;
    }

    /** The jail's files and the exec-verb socket: the last stages, whose failure stops everything. */
    method Finish(handle: Server, req: Request, stages: Stages) returns (ok: bool)
      requires Rising(handle, {githubAPI, jiraAPI, linearAPI, ghInjector})
      modifies this`open, this`nextId, this`agentHost, this`originOpen
      ensures ok ==> Rising(handle, {githubAPI, jiraAPI, linearAPI, ghInjector, agentHost})
      ensures ok <==> (req.agentHost && req.conversation ==> stages.files) && (req.agentHost ==> stages.agentHost)
      ensures !ok ==> open == {} && Valid()
      ensures ok ==> (req.agentHost ==> agentHost.Some? && agentHost.value in open && agentHost.value.lane == AgentHost) && forall s :: s in old(open) ==> s in open
    {
      if req.agentHost && req.conversation && !stages.files {
        Stop([Some(handle), githubAPI, jiraAPI, linearAPI, ghInjector]);
        return false;
      }
      if req.agentHost {
        var s := Listen(AgentHost, stages.agentHost);
        if s.None? {
          Stop([Some(handle), githubAPI, jiraAPI, linearAPI, ghInjector]);
          return false;
        }
        agentHost := s;
      }
      ok := true;
    }

    /** The injector and the last stages. */
    method StartJailSide(handle: Server, req: Request, stages: Stages) returns (ok: bool)
      requires Rising(handle, {githubAPI, jiraAPI, linearAPI})
      modifies this`open, this`nextId, this`ghInjector, this`agentHost, this`originOpen
      ensures ok <==> JailStarts(req, stages)
      ensures ok ==> Rising(handle, {githubAPI, jiraAPI, linearAPI, ghInjector, agentHost}) && JailUp(req)
      ensures ok ==> forall s :: s in old(open) ==> s in open
      ensures !ok ==> open == {} && Valid()
    {
      if InjectorWanted(req) {
        ok := StartInjector(handle, stages.injector);
        if !ok {
          return;
        }
      }
      ok := Finish(handle, req, stages);
    }

    /** Everything after the run's own proxies, and the record of it all. */
    method BringUp(handle: Server, req: Request, b: Bundle, reseal: Option<Bundle>, stages: Stages) returns (ok: bool)
      requires Rising(handle, {}) && open == {handle} && bundle == Some(b)
      modifies this`open, this`nextId, this`originOpen, this`bundle, this`jiraBase, this`proxied, this`proxies,
               this`githubAPI, this`jiraAPI, this`linearAPI, this`ghInjector, this`agentHost
      ensures Valid() && proxied == ok
      ensures ok <==> ApisStart(req, b, if reseal.Some? then reseal.value else b, stages) && JailStarts(req, stages)
      ensures !ok ==> open == {}
      ensures ok ==> proxies == Some(handle) && handle in open && ApisUp(req, b) && JailUp(req)
    {
      ok := StartApis(handle, req, b, reseal, stages);
      if !ok {
        return;
      }
      ok := StartJailSide(handle, req, stages);
      if ok {
        proxies, proxied := Some(handle), true;
      }
    }

    /** The base the lanes of a start would forward to, if there is a bundle that gives one. */
    ghost function StartBase(): Option<string>
      reads this
    {
      if bundle.None? then None else GitHubUpstream(bundle.value, defaultBase)
    }

    /**
    A start that fails leaves nothing of it listening; one that succeeds has
    started every lane the request and the bundle ask for, and recorded them all.
    */
    method StartProxies(req: Request, stages: Stages, reseal: Option<Bundle>) returns (ok: bool)
      requires Valid()
      modifies this
      ensures Valid()
      ensures !ok ==> open == old(open) && proxied == old(proxied)
      ensures ok <==> !old(proxied) && old(StartBase()).Some? && stages.run
                      && ApisStart(req, old(bundle).value, if reseal.Some? then reseal.value else old(bundle).value, stages)
                      && JailStarts(req, stages)
      ensures ok ==> proxied && old(StartBase()) == Some(githubBase)
      ensures ok ==> proxies.Some? && proxies.value in open && proxies.value.lane == RunProxies(githubBase, req.git)
      ensures ok ==> ApisUp(req, old(bundle).value) && JailUp(req)
      // on the bundle and the request themselves
      ensures ok ==> githubBase == if old(bundle).value.github.Some? then old(bundle).value.github.value.base else defaultBase
      ensures ok && old(bundle).value.github.Some? ==> githubBase != ""
      ensures ok && old(bundle).value.jiraUsable && old(bundle).value.jira.Some? && old(bundle).value.jira.value.site != "" ==>
                jiraAPI.Some? && jiraAPI.value in open && jiraAPI.value.lane == JiraApi(jiraBase)
      ensures ok && req.ghChannel && req.agentHost && req.conversation ==>
                ghInjector.Some? && ghInjector.value in open && ghInjector.value.lane == Injector(githubBase, sharedOrigin)
    {
      if bundle.None? || proxied {
        return false;
      }
      var b := bundle.value;
      var base := GitHubUpstream(b, defaultBase);
      if base.None? {
        return false;
      }
      githubBase := base.value;
      var handle := Listen(RunProxies(githubBase, req.git), stages.run);
      if handle.None? {
        return false;
      }
      ok := BringUp(handle.value, req, b, reseal, stages);
    }

    /** Every recorded server is shut down and forgotten, and the origin no injector serves is closed. */
    method Shutdown()
      requires Valid()
      modifies this
      ensures Valid() && open == {} && !originOpen && Recorded() == {None}
      ensures unchanged(`bundle, `proxied, `githubBase, `jiraBase)
    {
      var stopping := [agentHost, proxies, githubAPI, jiraAPI, linearAPI, ghInjector];
      var injector := ghInjector;
      assert forall s :: s in open ==> Some(s) in stopping;
      proxies, githubAPI, jiraAPI, linearAPI, ghInjector, agentHost := None, None, None, None, None, None;
      assert stopping[5] == injector;
      Stop(stopping);
      if injector.None? && sharedOrigin {
        originOpen := false;
      }
    }
  }

  // ------------------------------------------------------------------
  // Whole lives
  // ------------------------------------------------------------------

  /** What reaches the sidecar: a re-seal, a start with its outcomes, or an open lane asking for a credential. */
  datatype Event =
    | Reseal(unsealed: Option<Bundle>)
    | Start(req: Request, stages: Stages, during: Option<Bundle>)
    | AskGitHub(asker: Server)
    | AskJira(asker: Server)
    | End

  /** A credential a lane was given. */
  datatype Handed = HandedGitHub(to: Lane, github: GitHubCreds) | HandedJira(to: Lane, jira: JiraCreds)

  predicate RightHost(h: Handed) {
    match h
    case HandedGitHub(to, creds) => GitHubLane(to) && to.base == creds.base
    case HandedJira(to, creds) => to.JiraApi? && to.site == creds.site
  }

  /**
  Over any sequence of re-seals, starts, requests and shutdowns, no credential
  is handed to a lane that forwards anywhere but to the host it was issued for.
  */
  method Live(rt: CredRuntime, events: seq<Event>) returns (handed: seq<Handed>)
    requires rt.Valid()
    modifies rt
    ensures rt.Valid()
    ensures forall i :: 0 <= i < |handed| ==> RightHost(handed[i])
  {
    handed := [];
    for n := 0 to |events|
      invariant rt.Valid()
      invariant forall i :: 0 <= i < |handed| ==> RightHost(handed[i])
    {
      match events[n] {
        case Reseal(unsealed) =>
          rt.AcceptSealedBundle(unsealed);
        case Start(req, stages, during) =>
          var _ := rt.StartProxies(req, stages, during);
        case AskGitHub(asker) =>
          if asker in rt.open && GitHubLane(asker.lane) {
            var creds, _ := rt.HeldGitHub();
            if creds.Some? {
              handed := handed + [HandedGitHub(asker.lane, creds.value)];
            }
          }
        case AskJira(asker) =>
          if asker in rt.open && asker.lane.JiraApi? {
            var creds := rt.JiraAuthHeader();
            if creds.Some? {
              handed := handed + [HandedJira(asker.lane, creds.value)];
            }
          }
        case End =>
          rt.Shutdown();
      }
    }
  }
}
