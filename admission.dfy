/**
 * The submission logic of the web front end as functions of a state value: the
 * admission pipeline run on one submitted url (`try_enqueue`), the bulk entry point
 * that runs it on every url of a batch, and the admin rescan that queues one more
 * crawl task for a registered website. The mutable objects that follow these
 * definitions step by step are in class Views.Backend.
 */
module Admission {
  import opened Options
  import opened PyText

  datatype Severity = Success | Warning | Danger

  /** A flashed message and its category: what each entry point reports. */
  datatype Flash = Flash(message: string, severity: Severity)

  /** A registered website: url, submitter fingerprint and user agent. */
  datatype Website = Website(url: string, submitter: string, userAgent: string)

  /** A crawl task as handed to the task manager. */
  datatype Task = Task(websiteId: int, url: string, priority: int)

  /** What the request reveals about its sender. */
  datatype Requester = Requester(remoteAddr: string, forwardedFor: Option<string>, userAgent: string)

  /**
   * The helpers admission consults but whose code is not modelled: the top-directory
   * rewrite, the url syntax check, the "parent directory already registered" lookup
   * (over the registered urls), the blacklist match (over the blacklist entries) and
   * the network probe for an open directory.
   */
  datatype Collaborators = Collaborators(
    topDirectory: string -> string,
    isValidUrl: string -> bool,
    parentPosted: (set<string>, string) -> bool,
    isBlacklisted: (set<string>, string) -> bool,
    isOpenDirectory: string -> bool)

  /** Registered websites by id, the next id the database hands out, the blacklist and the crawl queue. */
  datatype State = State(websites: map<int, Website>, nextId: int, blacklist: set<string>, queue: seq<Task>)

  /** How one run of the admission pipeline ends. */
  datatype Verdict = InvalidUrl | AlreadyExists | ParentPosted | Blacklisted | NotOpenDirectory | Admitted

  /** Both halves of an entry point's effect: the new state and the reply. */
  datatype Outcome = Outcome(state: State, reply: Flash)

  const MaxBatch: nat := 1000
  const AdmittedPriority: int := 1
  const DefaultRescanPriority: int := 1

  const CaptchaMessage: string := "<strong>Error:</strong> Invalid captcha please try again"
  const CaptchaRejected: Flash := Flash(CaptchaMessage, Danger)
  const BatchSubmitted: Flash := Flash("Submitted websites to the queue", Success)
  const BatchSizeMessage: string := "Too few or too many urls, please submit 1-10 urls"
  const BatchSizeRejected: Flash := Flash(BatchSizeMessage, Danger)
  const RescanQueued: Flash := Flash("Enqueued rescan task", Success)
  const NoSuchWebsite: Flash := Flash("Website does not exist", Danger)

  // ---- url normalisation ----------------------------------------------------

  /**
   * `os.path.join(url, "")`: a `/` is appended unless the url already ends with one;
   * the empty string stays empty.
   */
  function WithTrailingSlash(url: string): (r: string)
    ensures url == [] ==> r == []
    ensures url != [] ==> r != [] && r[|r| - 1] == '/' && (r == url || r == url + "/")
    ensures url != [] && url[|url| - 1] == '/' ==> r == url
  {
    if url == [] || url[|url| - 1] == '/' then url else url + "/"
  }

  /** Appending the slash twice is appending it once. */
  lemma TrailingSlashIdempotent(url: string)
    ensures WithTrailingSlash(WithTrailingSlash(url)) == WithTrailingSlash(url)
  {
  }

  /** The url admission works on: slash appended, then cut to its top directory. */
  function Normalise(env: Collaborators, raw: string): string {
    env.topDirectory(WithTrailingSlash(raw))
  }

  // ---- the pipeline ---------------------------------------------------------

  /** The urls of all registered websites. */
  function Registered(s: State): set<string> {
    set id | id in s.websites :: s.websites[id].url
  }

  /** The five gates in the order the handler tries them; the first that fails decides. */
  function Judge(s: State, env: Collaborators, url: string): (v: Verdict)
    ensures v == Admitted <==>
              && env.isValidUrl(url) && url !in Registered(s)
              && !env.parentPosted(Registered(s), url)
              && !env.isBlacklisted(s.blacklist, url) && env.isOpenDirectory(url)
  {
    if !env.isValidUrl(url) then InvalidUrl
    else if url in Registered(s) then AlreadyExists
    else if env.parentPosted(Registered(s), url) then ParentPosted
    else if env.isBlacklisted(s.blacklist, url) then Blacklisted
    else if !env.isOpenDirectory(url) then NotOpenDirectory
    else Admitted
  }

  const InvalidUrlMessage: string :=
    "<strong>Error:</strong> Invalid url. Make sure to include the appropriate scheme."
  const AlreadyExistsMessage: string := "Website already exists"
  const ParentPostedMessage: string := "A parent directory of this url has already been posted"
  const BlacklistedMessage: string :=
    "<strong>Error:</strong> Sorry, this website has been blacklisted. If you think this is an error, please <a href='/contribute'>contact me</a>."
  const NotOpenDirectoryMessage: string :=
    "<strong>Error:</strong>The anti-spam algorithm determined that the submitted url is not an open directory or the server is not responding. If you think this is an error, please <a href='/contribute'>contact me</a>."
  const AdmittedMessage: string := "The website has been added to the queue"

  /** The message and category `try_enqueue` returns for each verdict. */
  function Reply(v: Verdict): (f: Flash)
    ensures f.severity == Success <==> v == Admitted
    ensures f.severity == Warning <==> v == InvalidUrl
  {
    match v
    case InvalidUrl => Flash(InvalidUrlMessage, Warning)
    case AlreadyExists => Flash(AlreadyExistsMessage, Danger)
    case ParentPosted => Flash(ParentPostedMessage, Danger)
    case Blacklisted => Flash(BlacklistedMessage, Danger)
    case NotOpenDirectory => Flash(NotOpenDirectoryMessage, Danger)
    case Admitted => Flash(AdmittedMessage, Success)
  }

  /** `remote_addr + "_" + X-Forwarded-For` (empty when the header is missing). */
  function Fingerprint(who: Requester): string {
    who.remoteAddr + "_" + who.forwardedFor.GetOr("")
  }

  /** The website record inserted for an admitted url. */
  function NewWebsite(url: string, who: Requester): Website {
    Website(url, Fingerprint(who), who.userAgent)
  }

  /**
   * `try_enqueue`: a rejected url changes nothing; an admitted one adds exactly one
   * website, under the next id, and appends exactly one task for it, priority 1.
   * The reply is the one of the first gate that fails; only admission is a success.
   */
  function Submit(s: State, env: Collaborators, who: Requester, raw: string): (r: Outcome)
    ensures var url := Normalise(env, raw);
      && r.reply == Reply(Judge(s, env, url))
      && (r.reply.severity == Success <==> Judge(s, env, url) == Admitted)
      && (Judge(s, env, url) != Admitted ==> r.state == s)
      && (Judge(s, env, url) == Admitted ==>
            && r.state.websites == s.websites[s.nextId := NewWebsite(url, who)]
            && r.state.nextId == s.nextId + 1
            && r.state.blacklist == s.blacklist
            && r.state.queue == s.queue + [Task(s.nextId, url, AdmittedPriority)])
  {
    var url := Normalise(env, raw);
    var v := Judge(s, env, url);
    if v == Admitted then
      var id := s.nextId;
      Outcome(State(s.websites[id := NewWebsite(url, who)], id + 1, s.blacklist,
                    s.queue + [Task(id, url, AdmittedPriority)]),
              Reply(v))
    else
      Outcome(s, Reply(v))
  }

  /**
   * Gate precedence: each verdict is reached exactly when its own gate fails and all
   * earlier gates pass.
   */
  lemma FirstFailingGateDecides(s: State, env: Collaborators, url: string)
    ensures var v := Judge(s, env, url);
      && (v == InvalidUrl <==> !env.isValidUrl(url))
      && (v == AlreadyExists <==> env.isValidUrl(url) && url in Registered(s))
      && (v == ParentPosted <==> env.isValidUrl(url) && url !in Registered(s)
                                 && env.parentPosted(Registered(s), url))
      && (v == Blacklisted <==> env.isValidUrl(url) && url !in Registered(s)
                                && !env.parentPosted(Registered(s), url)
                                && env.isBlacklisted(s.blacklist, url))
      && (v == NotOpenDirectory <==> env.isValidUrl(url) && url !in Registered(s)
                                     && !env.parentPosted(Registered(s), url)
                                     && !env.isBlacklisted(s.blacklist, url)
                                     && !env.isOpenDirectory(url))
      && (v == Admitted <==> env.isValidUrl(url) && url !in Registered(s)
                             && !env.parentPosted(Registered(s), url)
                             && !env.isBlacklisted(s.blacklist, url)
                             && env.isOpenDirectory(url))
  {
  }

  /** The reply tells the verdict: different verdicts give different messages. */
  lemma ReplyIdentifiesVerdict(v: Verdict, w: Verdict)
    ensures Reply(v) == Reply(w) ==> v == w
  {
    assert |InvalidUrlMessage| == 81 && |AlreadyExistsMessage| == 22 && |ParentPostedMessage| == 54;
    assert |BlacklistedMessage| == 141 && |NotOpenDirectoryMessage| == 214 && |AdmittedMessage| == 39;
  }

  /** Submitting a url with the slash already appended is submitting the url (`enqueue`, `check_url`). */
  lemma TrailingSlashBeforeSubmit(s: State, env: Collaborators, who: Requester, raw: string)
    ensures Submit(s, env, who, WithTrailingSlash(raw)) == Submit(s, env, who, raw)
  {
    TrailingSlashIdempotent(raw);
  }

  // ---- the registry invariant -----------------------------------------------

  /** No two registered websites share a url. */
  predicate UniqueUrls(websites: map<int, Website>) {
    forall i, j :: i in websites && j in websites && websites[i].url == websites[j].url ==> i == j
  }

  /**
   * What the model keeps true: every id is below the next one handed out, no url is
   * registered twice, and every queued task names a registered website and its url.
   */
  predicate WellFormed(s: State) {
    && (forall id :: id in s.websites ==> id < s.nextId)
    && UniqueUrls(s.websites)
    && (forall k :: 0 <= k < |s.queue| ==>
          s.queue[k].websiteId in s.websites && s.websites[s.queue[k].websiteId].url == s.queue[k].url)
  }

  lemma RegisteredHas(s: State, id: int)
    requires id in s.websites
    ensures s.websites[id].url in Registered(s)
  {
  }

  /**
   * Admission keeps the invariant, and an admitted url was not registered before and
   * is afterwards: the registry grows by exactly that one website.
   */
  lemma {:induction false} SubmitKeepsWellFormed(s: State, env: Collaborators, who: Requester, raw: string)
    requires WellFormed(s)
    ensures WellFormed(Submit(s, env, who, raw).state)
    ensures var url := Normalise(env, raw); var t := Submit(s, env, who, raw).state;
      Judge(s, env, url) == Admitted ==>
        && url !in Registered(s)
        && s.nextId !in s.websites
        && |t.websites| == |s.websites| + 1
        && Registered(t) == Registered(s) + {url}
  {
    var url := Normalise(env, raw);
    var t := Submit(s, env, who, raw).state;
    if Judge(s, env, url) == Admitted {
      assert s.nextId !in s.websites;
      forall i, j | i in t.websites && j in t.websites && t.websites[i].url == t.websites[j].url
        ensures i == j
      {
        if i != s.nextId && j != s.nextId {
        } else if i == s.nextId && j != s.nextId {
          RegisteredHas(s, j);
        } else if j == s.nextId && i != s.nextId {
          RegisteredHas(s, i);
        }
      }
      forall k | 0 <= k < |t.queue|
        ensures t.queue[k].websiteId in t.websites && t.websites[t.queue[k].websiteId].url == t.queue[k].url
      {
        if k < |s.queue| {
          assert t.queue[k] == s.queue[k];
          assert s.queue[k].websiteId != s.nextId;
        }
      }
      assert Registered(t) == Registered(s) + {url} by {
        forall u | u in Registered(t) ensures u in Registered(s) + {url} {
          var id :| id in t.websites && t.websites[id].url == u;
          if id != s.nextId { RegisteredHas(s, id); }
        }
        forall u | u in Registered(s) + {url} ensures u in Registered(t) {
          if u == url {
            RegisteredHas(t, s.nextId);
          } else {
            var id :| id in s.websites && s.websites[id].url == u;
            RegisteredHas(t, id);
          }
        }
      }
    }
  }

  /**
   * Once a url is admitted, submitting anything that normalises to it again is
   * refused as already existing and changes nothing.
   */
  lemma ResubmissionRejected(s: State, env: Collaborators, who: Requester, raw: string, again: string)
    requires Judge(s, env, Normalise(env, raw)) == Admitted
    requires Normalise(env, again) == Normalise(env, raw)
    ensures var t := Submit(s, env, who, raw).state;
      && Judge(t, env, Normalise(env, again)) == AlreadyExists
      && Submit(t, env, who, again) == Outcome(t, Reply(AlreadyExists))
  {
    var t := Submit(s, env, who, raw).state;
    RegisteredHas(t, s.nextId);
  }

  // ---- containment ----------------------------------------------------------

  predicate IsPrefix(a: string, b: string) {
    |a| <= |b| && b[..|a|] == a
  }

  /** A `parentPosted` that means "some registered url is a prefix of the candidate". */
  predicate HasRegisteredPrefix(urls: set<string>, url: string) {
    exists v :: v in urls && IsPrefix(v, url)
  }

  /** No website is registered under a url extending the url of an earlier-registered one. */
  predicate AncestorsFirst(s: State) {
    forall i, j :: i in s.websites && j in s.websites && i < j ==>
      !IsPrefix(s.websites[i].url, s.websites[j].url)
  }

  /**
   * With prefix containment as the parent lookup, admission never registers a url
   * below one already registered.
   */
  lemma AdmissionKeepsAncestorsFirst(s: State, env: Collaborators, who: Requester, raw: string)
    requires WellFormed(s) && AncestorsFirst(s)
    requires forall urls, u :: env.parentPosted(urls, u) == HasRegisteredPrefix(urls, u)
    ensures AncestorsFirst(Submit(s, env, who, raw).state)
  {
    var url := Normalise(env, raw);
    var t := Submit(s, env, who, raw).state;
    if Judge(s, env, url) == Admitted {
      forall i, j | i in t.websites && j in t.websites && i < j
        ensures !IsPrefix(t.websites[i].url, t.websites[j].url)
      {
        if j == s.nextId {
          RegisteredHas(s, i);
          assert !HasRegisteredPrefix(Registered(s), url);
        }
      }
    }
  }

  /**
   * The containment gate looks only upwards: with `http://a/b/` registered, its parent
   * `http://a/` is still admitted, and the registry then holds two urls one inside the other.
   */
  lemma ContainmentIsOneWay()
    ensures var env := Collaborators(u => u, u => true, HasRegisteredPrefix, (b, u) => false, u => true);
      var who := Requester("", None, "");
      var s := State(map[1 := Website("http://a/b/", "", "")], 2, {}, []);
      var t := Submit(s, env, who, "http://a/").state;
      && WellFormed(s) && AncestorsFirst(s)
      && 1 in t.websites && 2 in t.websites
      && IsPrefix(t.websites[2].url, t.websites[1].url)
  {
    var env := Collaborators(u => u, u => true, HasRegisteredPrefix, (b, u) => false, u => true);
    var s := State(map[1 := Website("http://a/b/", "", "")], 2, {}, []);
    assert Registered(s) == {"http://a/b/"} by {
      forall u | u in Registered(s) ensures u == "http://a/b/" {
        var id :| id in s.websites && s.websites[id].url == u;
      }
      RegisteredHas(s, 1);
    }
    assert "http://a/" != "http://a/b/" by { assert |"http://a/"| != |"http://a/b/"|; }
    assert !HasRegisteredPrefix(Registered(s), "http://a/") by {
      assert !IsPrefix("http://a/b/", "http://a/");
    }
    assert WithTrailingSlash("http://a/") == "http://a/";
    assert Judge(s, env, "http://a/") == Admitted;
    assert "http://a/b/"[..|"http://a/"|] == "http://a/";
  }

  // ---- bulk submission ------------------------------------------------------

  /** The admission pipeline run on each url in turn, every one on the state the previous left. */
  function SubmitAll(s: State, env: Collaborators, who: Requester, raws: seq<string>): (r: State)
    ensures r.blacklist == s.blacklist
    ensures s.nextId <= r.nextId <= s.nextId + |raws|
    ensures |r.queue| - |s.queue| == r.nextId - s.nextId && r.queue[..|s.queue|] == s.queue
    decreases |raws|
  {
    if raws == [] then s
    else SubmitAll(Submit(s, env, who, raws[0]).state, env, who, raws[1..])
  }

  lemma {:induction false} SubmitAllAppend(s: State, env: Collaborators, who: Requester, a: seq<string>, b: seq<string>)
    ensures SubmitAll(s, env, who, a + b) == SubmitAll(SubmitAll(s, env, who, a), env, who, b)
    decreases |a|
  {
    if a != [] {
      assert (a + b)[0] == a[0] && (a + b)[1..] == a[1..] + b;
      SubmitAllAppend(Submit(s, env, who, a[0]).state, env, who, a[1..], b);
    } else {
      assert a + b == b;
    }
  }

  /** One more url at the end of a batch is one more run of the pipeline. */
  lemma SubmitAllSnoc(s: State, env: Collaborators, who: Requester, raws: seq<string>, raw: string)
    ensures SubmitAll(s, env, who, raws + [raw]) == Submit(SubmitAll(s, env, who, raws), env, who, raw).state
  {
    SubmitAllAppend(s, env, who, raws, [raw]);
  }

  /**
   * A url the pipeline rejects at its turn has no effect on the rest of the batch: the
   * batch ends exactly as it would without that url.
   */
  lemma SkipsRejected(s: State, env: Collaborators, who: Requester, raws: seq<string>, k: nat)
    requires k < |raws|
    requires Judge(SubmitAll(s, env, who, raws[..k]), env, Normalise(env, raws[k])) != Admitted
    ensures SubmitAll(s, env, who, raws) == SubmitAll(s, env, who, raws[..k] + raws[k + 1..])
  {
    assert raws == raws[..k] + ([raws[k]] + raws[k + 1..]);
    SubmitAllAppend(s, env, who, raws[..k], [raws[k]] + raws[k + 1..]);
    SubmitAllAppend(s, env, who, raws[..k], raws[k + 1..]);
    var mid := SubmitAll(s, env, who, raws[..k]);
    assert ([raws[k]] + raws[k + 1..])[1..] == raws[k + 1..];
  }

  /**
   * `t` is `s` with websites and tasks only added: earlier websites and queued tasks
   * are kept, the blacklist is untouched, as many tasks as websites were added, and
   * each added task has priority 1 and names a website added after `s`.
   */
  predicate Extends(s: State, t: State) {
    && t.blacklist == s.blacklist
    && s.nextId <= t.nextId
    && (forall id :: id in s.websites ==> id in t.websites && t.websites[id] == s.websites[id])
    && |s.queue| <= |t.queue| && t.queue[..|s.queue|] == s.queue
    && |t.queue| - |s.queue| == t.nextId - s.nextId == |t.websites| - |s.websites|
    && (forall k :: |s.queue| <= k < |t.queue| ==>
          t.queue[k].priority == AdmittedPriority && s.nextId <= t.queue[k].websiteId)
  }

  lemma ExtendsTransitive(a: State, b: State, c: State)
    requires Extends(a, b) && Extends(b, c)
    ensures Extends(a, c)
  {
    assert c.queue[..|a.queue|] == c.queue[..|b.queue|][..|a.queue|];
    forall k | |a.queue| <= k < |c.queue|
      ensures c.queue[k].priority == AdmittedPriority && a.nextId <= c.queue[k].websiteId
    {
      if k < |b.queue| {
        assert c.queue[k] == c.queue[..|b.queue|][k] == b.queue[k];
      }
    }
  }

  lemma SubmitExtends(s: State, env: Collaborators, who: Requester, raw: string)
    requires WellFormed(s)
    ensures Extends(s, Submit(s, env, who, raw).state)
  {
    SubmitKeepsWellFormed(s, env, who, raw);
    var t := Submit(s, env, who, raw).state;
    if t != s {
      assert t.queue[..|s.queue|] == s.queue;
    }
  }

  /** A batch keeps the invariant and only adds, as `Extends` says. */
  lemma {:induction false} SubmitAllGrows(s: State, env: Collaborators, who: Requester, raws: seq<string>)
    requires WellFormed(s)
    ensures WellFormed(SubmitAll(s, env, who, raws))
    ensures Extends(s, SubmitAll(s, env, who, raws))
    decreases |raws|
  {
    if raws != [] {
      var m := Submit(s, env, who, raws[0]).state;
      SubmitKeepsWellFormed(s, env, who, raws[0]);
      SubmitExtends(s, env, who, raws[0]);
      SubmitAllGrows(m, env, who, raws[1..]);
      ExtendsTransitive(s, m, SubmitAll(m, env, who, raws[1..]));
    } else {
      assert s.queue[..|s.queue|] == s.queue;
    }
  }

  /**
   * `enqueue_bulk`: the batch is the white-space-separated urls. Without the captcha,
   * without urls, or with a batch outside 1..1000, nothing is written; otherwise every
   * url goes through the pipeline and the reply is the same whatever each one gave.
   */
  function Bulk(s: State, env: Collaborators, who: Requester, captchaOk: bool, urls: Option<string>): (r: Outcome)
    ensures r.state != s ==> captchaOk && urls.Some? && 1 <= |SplitWhitespace(urls.value)| <= MaxBatch
    ensures !captchaOk ==> r == Outcome(s, CaptchaRejected)
    ensures captchaOk && (urls.None? || !(1 <= |SplitWhitespace(urls.value)| <= MaxBatch)) ==>
              r == Outcome(s, BatchSizeRejected)
    ensures captchaOk && urls.Some? && 1 <= |SplitWhitespace(urls.value)| <= MaxBatch ==>
              r == Outcome(SubmitAll(s, env, who, SplitWhitespace(urls.value)), BatchSubmitted)
  {
    if !captchaOk then Outcome(s, CaptchaRejected)
    else if urls.None? || urls.value == "" then
      assert urls.Some? ==> SplitWhitespace(urls.value) == [];
      Outcome(s, BatchSizeRejected)
    else
      var tokens := SplitWhitespace(urls.value);
      if 0 < |tokens| <= MaxBatch then Outcome(SubmitAll(s, env, who, tokens), BatchSubmitted)
      else Outcome(s, BatchSizeRejected)
  }

  // ---- rescan ---------------------------------------------------------------

  /**
   * `admin_rescan_website`: for a registered website, one task with its id and url at
   * the given priority (1 when none is given) is appended behind everything already
   * queued, with no check for tasks already queued for it; for an unknown id nothing
   * changes. The registry is never touched.
   */
  function Rescan(s: State, websiteId: int, priority: Option<int>): (r: Outcome)
    ensures r.state.websites == s.websites && r.state.nextId == s.nextId && r.state.blacklist == s.blacklist
    ensures websiteId in s.websites ==>
              r == Outcome(s.(queue := s.queue + [Task(websiteId, s.websites[websiteId].url,
                                                       priority.GetOr(DefaultRescanPriority))]),
                           RescanQueued)
    ensures websiteId !in s.websites ==> r == Outcome(s, NoSuchWebsite)
  {
    if websiteId in s.websites then
      var task := Task(websiteId, s.websites[websiteId].url, priority.GetOr(DefaultRescanPriority));
      Outcome(s.(queue := s.queue + [task]), RescanQueued)
    else
      Outcome(s, NoSuchWebsite)
  }

  /** A rescan keeps the invariant: the new task names a registered website and its url. */
  lemma RescanKeepsWellFormed(s: State, websiteId: int, priority: Option<int>)
    requires WellFormed(s)
    ensures WellFormed(Rescan(s, websiteId, priority).state)
  {
    var t := Rescan(s, websiteId, priority).state;
    forall k | 0 <= k < |t.queue|
      ensures t.queue[k].websiteId in t.websites && t.websites[t.queue[k].websiteId].url == t.queue[k].url
    {
      if k < |s.queue| { assert t.queue[k] == s.queue[k]; }
    }
  }
}
