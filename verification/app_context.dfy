/**
 * The application state of src/contexts/AppContext.tsx: the reducer, the storage writes it
 * triggers, the provider that loads and saves credentials through the vault, the Basic
 * authorization header, and the extraction of the people of a sprint.
 */
module AppContext {
  import opened Wrappers
  import opened Domain
  import Base64
  import SecureStorage
  import Seqs

  datatype AppState = AppState(
    projectName: string,
    apiToken: string,
    email: string,
    projects: seq<Project>,
    selectedProject: Option<Project>,
    sprints: seq<Sprint>,
    selectedSprint: Option<Sprint>,
    issues: seq<Issue>,
    people: seq<Person>,
    loading: bool,
    error: Option<string>)

  const Initial: AppState := AppState("", "", "", [], None, [], None, [], [], false, None)

  /** The actions; `Unrecognised` stands for any other action type. */
  datatype Action =
    | SetProjectName(name: string)
    | SetApiToken(token: string)
    | SetEmail(address: string)
    | SetProjects(projects: seq<Project>)
    | SetSelectedProject(project: Option<Project>)
    | SetSprints(sprints: seq<Sprint>)
    | SetSelectedSprint(sprint: Option<Sprint>)
    | SetIssues(issues: seq<Issue>)
    | UpdateIssue(issue: Issue)
    | SetPeople(people: seq<Person>)
    | SetLoading(loading: bool)
    | SetError(error: Option<string>)
    | Unrecognised(tag: string)

  /** `issues.map(i => i.id === u.id ? u : i)`. */
  function Replace(issues: seq<Issue>, u: Issue): (r: seq<Issue>)
    ensures |r| == |issues|
  {
    if issues == [] then []
    else [if issues[0].id == u.id then u else issues[0]] + Replace(issues[1..], u)
  }

  /** What `Replace` does at each position: the issue with the payload's id becomes the
      payload, every other issue stays where it was. */
  lemma {:induction false} ReplacePointwise(issues: seq<Issue>, u: Issue)
    ensures forall i :: 0 <= i < |issues| && issues[i].id == u.id ==> Replace(issues, u)[i] == u
    ensures forall i :: 0 <= i < |issues| && issues[i].id != u.id ==> Replace(issues, u)[i] == issues[i]
  {
    if issues != [] {
      ReplacePointwise(issues[1..], u);
      assert forall i :: 1 <= i < |issues| ==> Replace(issues, u)[i] == Replace(issues[1..], u)[i - 1];
    }
  }

  /** Replacing twice with the same payload is replacing once. */
  lemma ReplaceIdempotent(issues: seq<Issue>, u: Issue)
    ensures Replace(Replace(issues, u), u) == Replace(issues, u)
  {
    var r := Replace(issues, u);
    ReplacePointwise(issues, u);
    ReplacePointwise(r, u);
    assert forall i :: 0 <= i < |r| ==> r[i].id == u.id ==> Replace(r, u)[i] == r[i];
  }

  /** The reducer. An unrecognised action leaves the state as it is, and only `SET_ISSUES`
      changes how many issues there are. */
  function Reduce(s: AppState, a: Action): (r: AppState)
    ensures a.Unrecognised? ==> r == s
    ensures !a.SetIssues? ==> |r.issues| == |s.issues|
  {
    match a
    case SetProjectName(v) => s.(projectName := v)
    case SetApiToken(v) => s.(apiToken := v)
    case SetEmail(v) => s.(email := v)
    case SetProjects(v) => s.(projects := v)
    case SetSelectedProject(v) => s.(selectedProject := v, sprints := [], selectedSprint := None)
    case SetSprints(v) => s.(sprints := v)
    case SetSelectedSprint(v) => s.(selectedSprint := v)
    case SetIssues(v) => s.(issues := v)
    case UpdateIssue(u) => s.(issues := Replace(s.issues, u))
    case SetPeople(v) => s.(people := v)
    case SetLoading(v) => s.(loading := v)
    case SetError(v) => s.(error := v)
    case Unrecognised(_) => s
  }

  /** The fields of the state. */
  datatype Field =
    | ProjectNameField | ApiTokenField | EmailField | ProjectsField | SelectedProjectField
    | SprintsField | SelectedSprintField | IssuesField | PeopleField | LoadingField | ErrorField

  /** Two states hold the same value in field `f`. */
  predicate Agree(s: AppState, t: AppState, f: Field) {
    match f
    case ProjectNameField => s.projectName == t.projectName
    case ApiTokenField => s.apiToken == t.apiToken
    case EmailField => s.email == t.email
    case ProjectsField => s.projects == t.projects
    case SelectedProjectField => s.selectedProject == t.selectedProject
    case SprintsField => s.sprints == t.sprints
    case SelectedSprintField => s.selectedSprint == t.selectedSprint
    case IssuesField => s.issues == t.issues
    case PeopleField => s.people == t.people
    case LoadingField => s.loading == t.loading
    case ErrorField => s.error == t.error
  }

  /** The fields an action is declared to write. */
  function Writes(a: Action): set<Field> {
    match a
    case SetProjectName(_) => {ProjectNameField}
    case SetApiToken(_) => {ApiTokenField}
    case SetEmail(_) => {EmailField}
    case SetProjects(_) => {ProjectsField}
    case SetSelectedProject(_) => {SelectedProjectField, SprintsField, SelectedSprintField}
    case SetSprints(_) => {SprintsField}
    case SetSelectedSprint(_) => {SelectedSprintField}
    case SetIssues(_) => {IssuesField}
    case UpdateIssue(_) => {IssuesField}
    case SetPeople(_) => {PeopleField}
    case SetLoading(_) => {LoadingField}
    case SetError(_) => {ErrorField}
    case Unrecognised(_) => {}
  }

  /** Frame: an action leaves every field outside `Writes(a)` unchanged; an unrecognised
      action changes nothing. */
  lemma ReduceFrame(s: AppState, a: Action, f: Field)
    requires f !in Writes(a)
    ensures Agree(s, Reduce(s, a), f)
    ensures a.Unrecognised? ==> Reduce(s, a) == s
  {
  }

  /** Every action except `UpdateIssue` writes values that do not depend on the state it is
      applied to; `SetSelectedProject` clears the sprints and the selected sprint. */
  lemma ReduceOverwrites(s: AppState, t: AppState, a: Action, f: Field)
    requires !a.UpdateIssue? && f in Writes(a)
    ensures Agree(Reduce(s, a), Reduce(t, a), f)
    ensures a.SetSelectedProject? ==> Reduce(s, a).sprints == [] && Reduce(s, a).selectedSprint == None
  {
  }

  /** Each action writes its payload into its field; an issue update replaces the issue with
      the payload's id. */
  lemma ReduceWritesPayload(s: AppState, a: Action)
    ensures a.SetProjectName? ==> Reduce(s, a).projectName == a.name
    ensures a.SetApiToken? ==> Reduce(s, a).apiToken == a.token
    ensures a.SetEmail? ==> Reduce(s, a).email == a.address
    ensures a.SetProjects? ==> Reduce(s, a).projects == a.projects
    ensures a.SetSelectedProject? ==> Reduce(s, a).selectedProject == a.project
    ensures a.SetSprints? ==> Reduce(s, a).sprints == a.sprints
    ensures a.SetSelectedSprint? ==> Reduce(s, a).selectedSprint == a.sprint
    ensures a.SetIssues? ==> Reduce(s, a).issues == a.issues
    ensures a.UpdateIssue? ==> Reduce(s, a).issues == Replace(s.issues, a.issue)
    ensures a.SetPeople? ==> Reduce(s, a).people == a.people
    ensures a.SetLoading? ==> Reduce(s, a).loading == a.loading
    ensures a.SetError? ==> Reduce(s, a).error == a.error
  {
  }

  /** Dispatching the same action twice is dispatching it once. */
  lemma ReduceIdempotent(s: AppState, a: Action)
    ensures Reduce(Reduce(s, a), a) == Reduce(s, a)
  {
    if a.UpdateIssue? {
      ReplaceIdempotent(s.issues, a.issue);
    }
  }

  /** Dispatching a sequence of actions in order. */
  function Apply(s: AppState, acts: seq<Action>): AppState
    decreases |acts|
  {
    if acts == [] then s else Apply(Reduce(s, acts[0]), acts[1..])
  }

  lemma {:induction false} ApplyAppend(s: AppState, a: seq<Action>, b: seq<Action>)
    ensures Apply(s, a + b) == Apply(Apply(s, a), b)
    decreases |a|
  {
    if a == [] {
      assert a + b == b;
    } else {
      assert (a + b)[0] == a[0] && (a + b)[1..] == a[1..] + b;
      ApplyAppend(Reduce(s, a[0]), a[1..], b);
    }
  }

  /** The storage write an action triggers. */
  datatype Persistence =
    | NoWrite
    | WriteItem(key: string, value: string, encrypt: bool)
    | WriteProject(project: Option<Project>)

  /** Only the three credential keys are written as items, and the selected project is
      written by its own action alone. */
  function PersistenceOf(a: Action): (r: Persistence)
    ensures r.WriteItem? ==> r.key == SecureStorage.ProjectNameKey || r.key == SecureStorage.ApiTokenKey || r.key == SecureStorage.EmailKey
    ensures r.WriteProject? <==> a.SetSelectedProject?
  {
    match a
    case SetProjectName(v) => WriteItem(SecureStorage.ProjectNameKey, v, false)
    case SetApiToken(v) => WriteItem(SecureStorage.ApiTokenKey, v, true)
    case SetEmail(v) => WriteItem(SecureStorage.EmailKey, v, true)
    case SetSelectedProject(p) => WriteProject(p)
    case _ => NoWrite
  }

  /** The email and the API token are written encrypted, the project name in plain text,
      and no other action but the selected project writes to storage. */
  lemma PersistenceEncryption(a: Action)
    ensures PersistenceOf(a).WriteItem? ==> (PersistenceOf(a).encrypt <==> a.SetEmail? || a.SetApiToken?)
    ensures PersistenceOf(a).NoWrite? <==> !(a.SetProjectName? || a.SetApiToken? || a.SetEmail? || a.SetSelectedProject?)
  {
  }

  /** The storage after the write an action triggers, which may be refused; failures are
      reported and otherwise ignored. */
  function Persisted(cfg: SecureStorage.Config, m: map<string, SecureStorage.Entry>, a: Action, now: int,
                     e: SecureStorage.Entropy, refused: set<string>): map<string, SecureStorage.Entry>
    requires SecureStorage.WellSized(e)
  {
    match PersistenceOf(a)
    case NoWrite => m
    case WriteItem(key, value, encrypt) =>
      var opts := if encrypt then SecureStorage.SetOptions(Some(e), None) else SecureStorage.Plain;
      SecureStorage.Write(m, key, SecureStorage.NewItem(cfg, value, opts, now), refused)
    case WriteProject(None) => m - {SecureStorage.SelectedProjectKey}
    case WriteProject(Some(p)) =>
      if !SecureStorage.ValidProject(p) then m
      else SecureStorage.Write(m, SecureStorage.SelectedProjectKey,
                               SecureStorage.NewItem(cfg, SecureStorage.ProjectJson(p), SecureStorage.Plain, now), refused)
  }

  /** The state and the storage agree: after a credential action that the storage accepted,
      reading the key back within the session timeout gives the value now in the state. */
  lemma PersistedReadsBack(cfg: SecureStorage.Config, m: map<string, SecureStorage.Entry>, s: AppState, a: Action,
                           now: int, later: int, e: SecureStorage.Entropy)
    requires SecureStorage.Sound(cfg.cipher) && SecureStorage.WellSized(e)
    requires a.SetProjectName? || a.SetEmail? || a.SetApiToken?
    requires later - now <= cfg.sessionTimeout * SecureStorage.MillisPerMinute
    ensures var m' := Persisted(cfg, m, a, now, e, {});
      var s' := Reduce(s, a);
      (a.SetProjectName? ==> SecureStorage.TextOf(cfg, m', SecureStorage.ProjectNameKey, later) == s'.projectName)
      && (a.SetEmail? ==> SecureStorage.TextOf(cfg, m', SecureStorage.EmailKey, later) == s'.email)
      && (a.SetApiToken? ==> SecureStorage.TextOf(cfg, m', SecureStorage.ApiTokenKey, later) == s'.apiToken)
  {
    match a
    case SetProjectName(v) => SecureStorage.SetThenRead(cfg, v, SecureStorage.Plain, now, later);
    case SetEmail(v) => SecureStorage.SetThenRead(cfg, v, SecureStorage.SetOptions(Some(e), None), now, later);
    case SetApiToken(v) => SecureStorage.SetThenRead(cfg, v, SecureStorage.SetOptions(Some(e), None), now, later);
  }

  /** The actions loading stored data dispatches: one per non-empty credential and one for
      a stored project, in this order. The domain is never dispatched. */
  function LoadActions(c: SecureStorage.Credentials, p: Option<Project>): (acts: seq<Action>)
    ensures forall a :: a in acts ==>
      ((a.SetProjectName? && a.name != "") || (a.SetEmail? && a.address != "")
       || (a.SetApiToken? && a.token != "") || (a.SetSelectedProject? && a.project.Some?))
    ensures |acts| == (if c.projectName != "" then 1 else 0) + (if c.email != "" then 1 else 0)
                      + (if c.apiToken != "" then 1 else 0) + (if p.Some? then 1 else 0)
  {
    (if c.projectName != "" then [SetProjectName(c.projectName)] else [])
    + (if c.email != "" then [SetEmail(c.email)] else [])
    + (if c.apiToken != "" then [SetApiToken(c.apiToken)] else [])
    + (if p.Some? then [SetSelectedProject(p)] else [])
  }

  lemma ApplyOne(s: AppState, a: Action)
    ensures Apply(s, [a]) == Reduce(s, a)
  {
  }

  /** Loading from the initial state restores the credentials and the project, and leaves
      every other field as it was. */
  lemma LoadRestores(c: SecureStorage.Credentials, p: Option<Project>)
    ensures var s := Apply(Initial, LoadActions(c, p));
      s == Initial.(projectName := c.projectName, email := c.email, apiToken := c.apiToken, selectedProject := p)
  {
    var a1 := if c.projectName != "" then [SetProjectName(c.projectName)] else [];
    var a2 := if c.email != "" then [SetEmail(c.email)] else [];
    var a3 := if c.apiToken != "" then [SetApiToken(c.apiToken)] else [];
    var a4 := if p.Some? then [SetSelectedProject(p)] else [];
    assert LoadActions(c, p) == a1 + a2 + a3 + a4;
    ApplyAppend(Initial, a1 + a2 + a3, a4);
    ApplyAppend(Initial, a1 + a2, a3);
    ApplyAppend(Initial, a1, a2);
  }

  /** The storage after a sequence of dispatches; the API token is encrypted with `e2`,
      everything else with `e1`. */
  function PersistAll(cfg: SecureStorage.Config, m: map<string, SecureStorage.Entry>, acts: seq<Action>, now: int,
                      e1: SecureStorage.Entropy, e2: SecureStorage.Entropy, refused: set<string>): map<string, SecureStorage.Entry>
    requires SecureStorage.WellSized(e1) && SecureStorage.WellSized(e2)
    decreases |acts|
  {
    if acts == [] then m
    else
      var e := if acts[0].SetApiToken? then e2 else e1;
      PersistAll(cfg, Persisted(cfg, m, acts[0], now, e, refused), acts[1..], now, e1, e2, refused)
  }

  /** The credentials stored in `m` as `getCredentials` reads them at time `now`. */
  function StoredCredentials(cfg: SecureStorage.Config, m: map<string, SecureStorage.Entry>, now: int): SecureStorage.Credentials {
    SecureStorage.Credentials(
      SecureStorage.TextOf(cfg, m, SecureStorage.ProjectNameKey, now), SecureStorage.TextOf(cfg, m, SecureStorage.DomainKey, now),
      SecureStorage.TextOf(cfg, m, SecureStorage.EmailKey, now), SecureStorage.TextOf(cfg, m, SecureStorage.ApiTokenKey, now))
  }

  /** The header of section 2 of RFC 7617, or why there is none. */
  datatype Auth = Missing | Basic(header: string) | InvalidCharacter

  /** `getAuthHeader`: no header without both an email and a token; otherwise "Basic "
      followed by the base 64 of "email:token", and `btoa` throws outside Latin-1. */
  function GetAuthHeader(s: AppState): (r: Auth)
    ensures r.Missing? <==> s.email == "" || s.apiToken == ""
    ensures r.InvalidCharacter? <==> s.email != "" && s.apiToken != "" && !Base64.IsLatin1(s.email + ":" + s.apiToken)
  {
    if s.email == "" || s.apiToken == "" then Missing
    else match Base64.Btoa(s.email + ":" + s.apiToken)
      case None => InvalidCharacter
      case Some(b) => Basic("Basic " + b)
  }

  /** The user-id and password of decoded Basic credentials: the text before and after the
      first colon. */
  function SplitAtColon(t: string): (r: (string, string))
    ensures ':' !in r.0
    ensures ':' in t ==> t == r.0 + ":" + r.1
    ensures ':' !in t ==> r == (t, "")
  {
    if t == "" then ("", "")
    else if t[0] == ':' then ("", t[1..])
    else
      var (u, p) := SplitAtColon(t[1..]);
      assert t == [t[0]] + t[1..];
      ([t[0]] + u, p)
  }

  /** A server decoding the header as section 2 of RFC 7617 describes recovers the email and
      the token, when the email has no colon. */
  lemma AuthHeaderDecodes(s: AppState)
    requires GetAuthHeader(s).Basic?
    ensures var h := GetAuthHeader(s).header;
      |h| >= 6 && h[..6] == "Basic "
      && Base64.Atob(h[6..]) == Some(s.email + ":" + s.apiToken)
      && (':' !in s.email ==> SplitAtColon(Base64.Atob(h[6..]).value) == (s.email, s.apiToken))
  {
    var t := s.email + ":" + s.apiToken;
    var h := GetAuthHeader(s).header;
    assert h == "Basic " + Base64.Btoa(t).value;
    assert h[6..] == Base64.Btoa(t).value;
    Base64.AtobBtoa(t);
    if ':' !in s.email {
      SplitUnique(s.email, s.apiToken);
    }
  }

  lemma {:induction false} SplitUnique(u: string, p: string)
    requires ':' !in u
    ensures SplitAtColon(u + ":" + p) == (u, p)
  {
    if u != "" {
      assert (u + ":" + p)[1..] == u[1..] + ":" + p;
      SplitUnique(u[1..], p);
      assert [u[0]] + u[1..] == u;
    } else {
      assert u + ":" + p == ":" + p;
    }
  }

  /** The people an issue names, assignee before reporter. */
  function Opt(o: Option<Person>): seq<Person> {
    if o.Some? then [o.value] else []
  }

  function Named(i: Issue): seq<Person> {
    Opt(i.assignee) + Opt(i.reporter)
  }

  /** The people the issues name, in issue order. */
  function Candidates(issues: seq<Issue>): seq<Person>
    decreases |issues|
  {
    if issues == [] then [] else Candidates(issues[..|issues| - 1]) + Named(issues[|issues| - 1])
  }

  function Ids(ps: seq<Person>): set<string> {
    set p | p in ps :: p.accountId
  }

  lemma IdsAppend(a: seq<Person>, b: seq<Person>)
    ensures Ids(a + b) == Ids(a) + Ids(b)
  {
    assert forall p :: p in a + b <==> p in a || p in b;
  }

  /** Keeping the first person of each account id, in order. */
  function Dedup(cs: seq<Person>): (r: seq<Person>)
    ensures Ids(r) == Ids(cs)
    decreases |cs|
  {
    if cs == [] then []
    else
      var r := Dedup(cs[..|cs| - 1]);
      var last := cs[|cs| - 1];
      assert cs == cs[..|cs| - 1] + [last];
      IdsAppend(cs[..|cs| - 1], [last]);
      IdsAppend(r, [last]);
      assert Ids([last]) == {last.accountId};
      if last.accountId in Ids(r) then r else r + [last]
  }

  /** The people of a sprint: the first occurrence of each account id among the assignees
      and reporters. */
  function UniquePeople(issues: seq<Issue>): (r: seq<Person>)
    ensures Ids(r) == Ids(Candidates(issues))
    ensures Seqs.DistinctBy(r, (p: Person) => p.accountId)
  {
    DedupDistinct(Candidates(issues));
    Dedup(Candidates(issues))
  }

  /** No two people share an account id. */
  lemma {:induction false} DedupDistinct(cs: seq<Person>)
    ensures Seqs.DistinctBy(Dedup(cs), (p: Person) => p.accountId)
    decreases |cs|
  {
    if cs != [] {
      DedupDistinct(cs[..|cs| - 1]);
    }
  }

  /** Position `j` holds the first person named with its account id. */
  predicate FirstOf(cs: seq<Person>, j: int)
    requires 0 <= j < |cs|
  {
    forall k :: 0 <= k < j ==> cs[k].accountId != cs[j].accountId
  }

  /** Every person kept is the first one named with that account id. */
  lemma {:induction false} DedupFirstSeen(cs: seq<Person>)
    ensures forall p :: p in Dedup(cs) ==> exists j :: 0 <= j < |cs| && cs[j] == p && FirstOf(cs, j)
    decreases |cs|
  {
    if cs != [] {
      var init := cs[..|cs| - 1];
      DedupFirstSeen(init);
      forall p | p in Dedup(cs)
        ensures exists j :: 0 <= j < |cs| && cs[j] == p && FirstOf(cs, j)
      {
        if p in Dedup(init) {
          var j :| 0 <= j < |init| && init[j] == p && FirstOf(init, j);
          assert cs[j] == p && FirstOf(cs, j);
        } else {
          var j := |cs| - 1;
          assert Dedup(cs) == Dedup(init) + [cs[j]];
          assert p == cs[j] && p.accountId !in Ids(init);
          forall k | 0 <= k < j ensures cs[k].accountId != p.accountId {
            assert cs[k] in init;
          }
          assert FirstOf(cs, j);
        }
      }
    }
  }

  /** Every assignee and every reporter of the issues has its account id among the people,
      and everyone among the people is an assignee or a reporter of some issue. */
  lemma {:induction false} UniquePeopleCovers(issues: seq<Issue>)
    ensures forall i :: 0 <= i < |issues| && issues[i].assignee.Some? ==> issues[i].assignee.value.accountId in Ids(UniquePeople(issues))
    ensures forall i :: 0 <= i < |issues| && issues[i].reporter.Some? ==> issues[i].reporter.value.accountId in Ids(UniquePeople(issues))
    ensures forall p :: p in UniquePeople(issues) ==> exists i :: 0 <= i < |issues| && p in Named(issues[i])
    decreases |issues|
  {
    CandidatesNamed(issues);
    DedupSubset(Candidates(issues));
  }

  lemma {:induction false} CandidatesNamed(issues: seq<Issue>)
    ensures forall p :: p in Candidates(issues) <==> exists i :: 0 <= i < |issues| && p in Named(issues[i])
  {
    forall p ensures p in Candidates(issues) <==> exists i :: 0 <= i < |issues| && p in Named(issues[i]) {
      if p in Candidates(issues) {
        var i := CandidateNamed(issues, p);
      }
      if exists i :: 0 <= i < |issues| && p in Named(issues[i]) {
        var i :| 0 <= i < |issues| && p in Named(issues[i]);
        NamedCandidate(issues, p, i);
      }
    }
  }

  /** A candidate is named by some issue. */
  lemma {:induction false} CandidateNamed(issues: seq<Issue>, p: Person) returns (i: nat)
    requires p in Candidates(issues)
    ensures i < |issues| && p in Named(issues[i])
    decreases |issues|
  {
    var init := issues[..|issues| - 1];
    if p in Candidates(init) {
      i := CandidateNamed(init, p);
      assert issues[i] == init[i];
    } else {
      i := |issues| - 1;
    }
  }

  /** Whoever an issue names is a candidate. */
  lemma {:induction false} NamedCandidate(issues: seq<Issue>, p: Person, i: nat)
    requires i < |issues| && p in Named(issues[i])
    ensures p in Candidates(issues)
    decreases |issues|
  {
    var init := issues[..|issues| - 1];
    if i < |init| {
      assert issues[i] == init[i];
      NamedCandidate(init, p, i);
    }
  }

  lemma {:induction false} DedupSubset(cs: seq<Person>)
    ensures forall p :: p in Dedup(cs) ==> p in cs
    decreases |cs|
  {
    if cs != [] {
      DedupSubset(cs[..|cs| - 1]);
    }
  }

  /** One step of `Dedup` on an optional person. */
  lemma DedupStep(cs: seq<Person>, o: Option<Person>)
    ensures Dedup(cs + Opt(o))
         == if o.Some? && o.value.accountId !in Ids(Dedup(cs)) then Dedup(cs) + [o.value] else Dedup(cs)
  {
    if o.Some? {
      assert (cs + Opt(o))[..|cs|] == cs;
    } else {
      assert cs + Opt(o) == cs;
    }
  }

  lemma CandidatesStep(issues: seq<Issue>, n: int)
    requires 0 <= n < |issues|
    ensures Candidates(issues[..n + 1]) == Candidates(issues[..n]) + Opt(issues[n].assignee) + Opt(issues[n].reporter)
  {
    assert issues[..n + 1][..n] == issues[..n];
  }

  /** The body the loop runs for the assignee and then for the reporter: push the person
      and remember the id, unless the id was seen. */
  method Visit(people: seq<Person>, seen: set<string>, o: Option<Person>, ghost cs: seq<Person>)
    returns (people': seq<Person>, seen': set<string>)
    requires people == Dedup(cs) && seen == Ids(people)
    ensures people' == Dedup(cs + Opt(o)) && seen' == Ids(people')
  {
    DedupStep(cs, o);
    people', seen' := people, seen;
    if o.Some? && o.value.accountId !in seen {
      IdsAppend(people, [o.value]);
      people' := people + [o.value];
      seen' := seen + {o.value.accountId};
    }
  }

  /** The people-extraction loop of `fetchIssuesAndPeople`. */
  method ExtractPeople(issues: seq<Issue>) returns (people: seq<Person>)
    ensures people == UniquePeople(issues)
  {
    people := [];
    var seen: set<string> := {};
    var n := 0;
    assert Candidates(issues[..0]) == [];
    while n < |issues|
      invariant 0 <= n <= |issues|
      invariant people == Dedup(Candidates(issues[..n]))
      invariant seen == Ids(people)
    {
      var issue := issues[n];
      ghost var before := Candidates(issues[..n]);
      people, seen := Visit(people, seen, issue.assignee, before);
      people, seen := Visit(people, seen, issue.reporter, before + Opt(issue.assignee));
      CandidatesStep(issues, n);
      n := n + 1;
    }
    assert issues[..n] == issues;
  }

  /** The provider: the state behind `useReducer`, and the vault it writes through. */
  class Provider {
    var state: AppState
    const vault: SecureStorage.Vault

    constructor(vault: SecureStorage.Vault)
      ensures state == Initial && this.vault == vault
    {
      state := Initial;
      this.vault := vault;
    }

    /** `dispatch`: the reducer's new state, and the write it triggers. `e` is the
        randomness an encrypted write draws; keys in `refused` are refused by the storage. */
    method Dispatch(a: Action, now: int, e: SecureStorage.Entropy, refused: set<string>)
      requires SecureStorage.WellSized(e)
      modifies this, vault
      ensures state == Reduce(old(state), a)
      ensures vault.store == Persisted(vault.config, old(vault.store), a, now, e, refused)
    {
      state := Reduce(state, a);
      match a
      case SetProjectName(v) =>
        var _ := vault.SetItem(SecureStorage.ProjectNameKey, v, SecureStorage.Plain, now, SecureStorage.ProjectNameKey in refused);
      case SetApiToken(v) =>
        var _ := vault.SetItem(SecureStorage.ApiTokenKey, v, SecureStorage.SetOptions(Some(e), None), now, SecureStorage.ApiTokenKey in refused);
      case SetEmail(v) =>
        var _ := vault.SetItem(SecureStorage.EmailKey, v, SecureStorage.SetOptions(Some(e), None), now, SecureStorage.EmailKey in refused);
      case SetSelectedProject(p) =>
        var _ := vault.SetSelectedProject(p, now, SecureStorage.SelectedProjectKey in refused);
      case _ =>
    }

    /** Dispatches a sequence of actions in order. */
    method DispatchAll(acts: seq<Action>, now: int, e1: SecureStorage.Entropy, e2: SecureStorage.Entropy, refused: set<string>)
      requires SecureStorage.WellSized(e1) && SecureStorage.WellSized(e2)
      modifies this, vault
      ensures state == Apply(old(state), acts)
      ensures vault.store == PersistAll(vault.config, old(vault.store), acts, now, e1, e2, refused)
    {
      var i := 0;
      while i < |acts|
        invariant 0 <= i <= |acts|
        invariant Apply(state, acts[i..]) == Apply(old(state), acts)
        invariant PersistAll(vault.config, vault.store, acts[i..], now, e1, e2, refused)
               == PersistAll(vault.config, old(vault.store), acts, now, e1, e2, refused)
      {
        assert acts[i..][1..] == acts[i + 1..];
        Dispatch(acts[i], now, if acts[i].SetApiToken? then e2 else e1, refused);
        i := i + 1;
      }
    }

    /** `loadStoredData`: reads the credentials and the project, then dispatches an action for
        each one found. The reads cannot fail, so the clearing fallback is never taken. */
    method LoadStoredData(now: int, e1: SecureStorage.Entropy, e2: SecureStorage.Entropy, refused: set<string>)
      requires SecureStorage.WellSized(e1) && SecureStorage.WellSized(e2)
      modifies this, vault
      ensures var acts := LoadActions(StoredCredentials(vault.config, old(vault.store), now),
                                      StoredProject(vault.config, old(vault.store), now));
        state == Apply(old(state), acts)
        && vault.store == PersistAll(vault.config, AfterLoadReads(vault.config, old(vault.store), now), acts, now, e1, e2, refused)
    {
      var c := vault.GetCredentials(now);
      SecureStorage.PurgeStep(vault.config, old(vault.store), SecureStorage.CredentialPurges(vault.config, old(vault.store), now),
                              SecureStorage.SelectedProjectKey, now);
      var p := vault.GetSelectedProject(now);
      DispatchAll(LoadActions(c, p), now, e1, e2, refused);
    }

    /** `saveCredentials`: stores the credentials (without a domain), then dispatches them,
        or records the error when any write was refused. `e1` and `e2` are the random bytes of
        the vault's encrypted writes of the email and the token, `d1` and `d2` those of the
        writes the dispatched actions make again. */
    method SaveCredentials(projectName: string, email: string, token: string, now: int,
                           e1: SecureStorage.Entropy, e2: SecureStorage.Entropy,
                           d1: SecureStorage.Entropy, d2: SecureStorage.Entropy, refused: set<string>)
      returns (saved: bool)
      requires SecureStorage.WellSized(e1) && SecureStorage.WellSized(e2)
      requires SecureStorage.WellSized(d1) && SecureStorage.WellSized(d2)
      modifies this, vault
      ensures saved <==> (SecureStorage.ProjectNameKey !in refused && SecureStorage.DomainKey !in refused
                          && SecureStorage.EmailKey !in refused && SecureStorage.ApiTokenKey !in refused)
      ensures state == Apply(old(state), SaveActions(projectName, email, token, saved))
      ensures vault.store == PersistAll(vault.config,
        SecureStorage.CredentialWrites(vault.config, old(vault.store), SecureStorage.Credentials(projectName, "", email, token), now, e1, e2, refused),
        SaveActions(projectName, email, token, saved), now, d1, d2, refused)
    {
      var r := vault.SetCredentials(SecureStorage.Credentials(projectName, "", email, token), now, e1, e2, refused);
      saved := r.Ok?;
      DispatchAll(SaveActions(projectName, email, token, saved), now, d1, d2, refused);
    }
  }

  /** The project `getSelectedProject` returns from `m` at time `now`. */
  function StoredProject(cfg: SecureStorage.Config, m: map<string, SecureStorage.Entry>, now: int): Option<Project> {
    SecureStorage.ProjectOf(SecureStorage.Read(cfg, m, SecureStorage.SelectedProjectKey, now))
  }

  /** The storage after the reads of `loadStoredData`. */
  function AfterLoadReads(cfg: SecureStorage.Config, m: map<string, SecureStorage.Entry>, now: int): map<string, SecureStorage.Entry> {
    SecureStorage.AfterProjectRead(cfg, m - SecureStorage.CredentialPurges(cfg, m, now), now)
  }

  /** The actions `saveCredentials` dispatches. */
  function SaveActions(projectName: string, email: string, token: string, saved: bool): seq<Action> {
    if saved then [SetProjectName(projectName), SetEmail(email), SetApiToken(token)]
    else [SetError(Some(SaveFailedMessage))]
  }

  /** A successful save puts the three credentials in the state; a failed one only records
      the error. Either way nothing else changes. */
  lemma SaveOutcome(s: AppState, projectName: string, email: string, token: string, saved: bool)
    ensures saved ==> Apply(s, SaveActions(projectName, email, token, saved))
                      == s.(projectName := projectName, email := email, apiToken := token)
    ensures !saved ==> Apply(s, SaveActions(projectName, email, token, saved)) == s.(error := Some(SaveFailedMessage))
  {
    var acts := SaveActions(projectName, email, token, saved);
    if saved {
      assert acts == [SetProjectName(projectName)] + [SetEmail(email)] + [SetApiToken(token)];
      ApplyAppend(s, [SetProjectName(projectName)] + [SetEmail(email)], [SetApiToken(token)]);
      ApplyAppend(s, [SetProjectName(projectName)], [SetEmail(email)]);
    }
  }

  const SaveFailedMessage: string := "Failed to save credentials securely"
}
