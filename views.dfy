/**
 * The request handlers that write: the website registry and the crawl queue as one
 * mutable object, and the handlers as methods that check the gates one by one and
 * return early, insert the website, then queue the task. Each method's new state
 * and reply are those the functions of module Admission give for the old state.
 */
module Views {
  import opened Options
  import opened PyText
  import opened Admission

  class Backend {
    /** The database's website table, keyed by id. */
    var websites: map<int, Website>
    /** The id the database assigns to the next inserted website. */
    var nextId: int
    /** The database's blacklist entries. */
    var blacklist: set<string>
    /** The task manager's queue, in the order tasks were queued. */
    var queue: seq<Task>

    function Snapshot(): State
      reads this
    {
      State(websites, nextId, blacklist, queue)
    }

    predicate Valid()
      reads this
    {
      WellFormed(Snapshot())
    }

    constructor (entries: set<string>)
      ensures Valid() && Snapshot() == State(map[], 1, entries, [])
    {
      websites := map[];
      nextId := 1;
      blacklist := entries;
      queue := [];
    }

    /** `db.get_website_by_url`: the id of the website registered under exactly this url. */
    method GetWebsiteByUrl(url: string) returns (found: Option<int>)
      ensures found.Some? <==> url in Registered(Snapshot())
      ensures found.Some? ==> found.value in websites && websites[found.value].url == url
    {
      if id :| id in websites && websites[id].url == url {
        found := Some(id);
      } else {
        found := None;
      }
    }

    /** `db.insert_website`: stores the website under a fresh id and returns that id. */
    method InsertWebsite(w: Website) returns (id: int)
      modifies this
      ensures id == old(nextId) && nextId == old(nextId) + 1
      ensures websites == old(websites)[id := w]
      ensures blacklist == old(blacklist) && queue == old(queue)
    {
      id := nextId;
      websites := websites[id := w];
      nextId := nextId + 1;
    }

    /** `taskManager.queue_task`: appends the task. */
    method QueueTask(t: Task)
      modifies this
      ensures queue == old(queue) + [t]
      ensures websites == old(websites) && nextId == old(nextId) && blacklist == old(blacklist)
    {
      queue := queue + [t];
    }

    /** `try_enqueue`. */
    method TryEnqueue(env: Collaborators, who: Requester, raw: string) returns (reply: Flash)
      requires Valid()
      modifies this
      ensures Valid()
      ensures Snapshot() == Submit(old(Snapshot()), env, who, raw).state
      ensures reply == Submit(old(Snapshot()), env, who, raw).reply
    {
      ghost var s := Snapshot();
      SubmitKeepsWellFormed(s, env, who, raw);
      var url := WithTrailingSlash(raw);
      url := env.topDirectory(url);
      if !env.isValidUrl(url) {
        return Reply(InvalidUrl);
      }
      var existing := GetWebsiteByUrl(url);
      if existing.Some? {
        return Reply(AlreadyExists);
      }
      if env.parentPosted(Registered(Snapshot()), url) {
        return Reply(ParentPosted);
      }
      if env.isBlacklisted(blacklist, url) {
        return Reply(Blacklisted);
      }
      if !env.isOpenDirectory(url) {
        return Reply(NotOpenDirectory);
      }
      var id := InsertWebsite(NewWebsite(url, who));
      QueueTask(Task(id, url, AdmittedPriority));
      return Reply(Admitted);
    }

    /** `enqueue`: the single-url form, behind the captcha. */
    method Enqueue(env: Collaborators, who: Requester, captchaOk: bool, raw: string) returns (reply: Flash)
      requires Valid()
      modifies this
      ensures Valid()
      ensures !captchaOk ==> Snapshot() == old(Snapshot()) && reply == CaptchaRejected
      ensures captchaOk ==> Snapshot() == Submit(old(Snapshot()), env, who, raw).state
                            && reply == Submit(old(Snapshot()), env, who, raw).reply
    {
      if !captchaOk {
        return CaptchaRejected;
      }
      TrailingSlashBeforeSubmit(Snapshot(), env, who, raw);
      var url := WithTrailingSlash(raw);
      reply := TryEnqueue(env, who, url);
    }

    /** `check_url`: one url of a batch; its reply is dropped. */
    method CheckUrl(env: Collaborators, who: Requester, raw: string)
      requires Valid()
      modifies this
      ensures Valid()
      ensures Snapshot() == Submit(old(Snapshot()), env, who, raw).state
    {
      TrailingSlashBeforeSubmit(Snapshot(), env, who, raw);
      var url := WithTrailingSlash(raw);
      var _ := TryEnqueue(env, who, url);
    }

    /** `pool.map(check_url, urls)`, taken as one `check_url` after the other in list order. */
    method CheckEach(env: Collaborators, who: Requester, tokens: seq<string>)
      requires Valid()
      modifies this
      ensures Valid()
      ensures Snapshot() == SubmitAll(old(Snapshot()), env, who, tokens)
    {
      ghost var s := Snapshot();
      var i := 0;
      while i < |tokens|
        invariant 0 <= i <= |tokens|
        invariant Valid()
        invariant Snapshot() == SubmitAll(s, env, who, tokens[..i])
      {
        SubmitAllSnoc(s, env, who, tokens[..i], tokens[i]);
        assert tokens[..i + 1] == tokens[..i] + [tokens[i]];
        CheckUrl(env, who, tokens[i]);
        i := i + 1;
      }
      assert tokens[..i] == tokens;
    }

    /** `enqueue_bulk`, with the worker pool replaced by a loop over the urls. */
    method EnqueueBulk(env: Collaborators, who: Requester, captchaOk: bool, urls: Option<string>)
      returns (reply: Flash)
      requires Valid()
      modifies this
      ensures Valid()
      ensures Snapshot() == Bulk(old(Snapshot()), env, who, captchaOk, urls).state
      ensures reply == Bulk(old(Snapshot()), env, who, captchaOk, urls).reply
    {
      if !captchaOk {
        return CaptchaRejected;
      }
      if urls.None? || urls.value == "" {
        return BatchSizeRejected;
      }
      var tokens := SplitWhitespace(urls.value);
      if !(0 < |tokens| <= MaxBatch) {
        return BatchSizeRejected;
      }
      CheckEach(env, who, tokens);
      return BatchSubmitted;
    }

    /** `admin_rescan_website`: one more task for a registered website. */
    method RescanWebsite(websiteId: int, priority: Option<int>) returns (reply: Flash)
      requires Valid()
      modifies this
      ensures Valid()
      ensures Snapshot() == Rescan(old(Snapshot()), websiteId, priority).state
      ensures reply == Rescan(old(Snapshot()), websiteId, priority).reply
    {
      RescanKeepsWellFormed(Snapshot(), websiteId, priority);
      if websiteId in websites {
        var p := priority.GetOr(DefaultRescanPriority);
        QueueTask(Task(websiteId, websites[websiteId].url, p));
        return RescanQueued;
      } else {
        return NoSuchWebsite;
      }
    }
  }

  /**
   * A client of the handlers: a first submission is registered as website 1 with one
   * priority-1 task, the same url again is refused, a url below it is refused as
   * having a registered parent, and a rescan at priority 0 queues a second task
   * behind the first.
   */
  method Walkthrough() {
    var env := Collaborators(u => u, u => true, HasRegisteredPrefix, (b, u) => false, u => true);
    var who := Requester("10.0.0.1", None, "agent");
    var site := "http://example.com/files/";
    var backend := new Backend({});

    var reply := backend.TryEnqueue(env, who, "http://example.com/files");
    assert WithTrailingSlash("http://example.com/files") == site;
    assert Registered(State(map[], 1, {}, [])) == {};
    assert reply == Reply(Admitted);
    assert backend.websites == map[1 := NewWebsite(site, who)];
    assert backend.queue == [Task(1, site, 1)];

    ghost var one := backend.Snapshot();
    assert Registered(one) == {site} by {
      RegisteredHas(one, 1);
    }
    reply := backend.TryEnqueue(env, who, "http://example.com/files");
    assert reply == Reply(AlreadyExists);

    reply := backend.TryEnqueue(env, who, "http://example.com/files/sub/");
    assert IsPrefix(site, "http://example.com/files/sub/");
    assert "http://example.com/files/sub/" != site by {
      assert |"http://example.com/files/sub/"| != |site|;
    }
    assert reply == Reply(ParentPosted);

    reply := backend.RescanWebsite(1, Some(0));
    assert reply == RescanQueued;
    assert backend.queue == [Task(1, site, 1), Task(1, site, 0)];
  }
}
