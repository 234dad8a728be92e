/** cmd/deploy_vultr.go: creating a startup script through an API whose POST may take effect without
    a readable reply. No other client uses the script's name. */
module StartupScript {
  import opened Common

  datatype Script = Script(name: string, content: string)

  datatype Entry = Entry(id: string, name: string)

  /** One page of the listing; an empty `next` ends it. */
  datatype Page = Page(entries: seq<Entry>, next: string)

  /** A reply to a POST: a decodable body with its id, an undecodable one, an error status, or no
      reply at all. */
  datatype Reply = Created(id: string) | Undecodable | Status(code: int) | Transport

  datatype Event = Posted(reply: Reply) | LookupFoundNothing

  const START := "/startup-scripts?per_page=100"
  const MAX_PAGES := 1000
  const MAX_ROUNDS := 3

  predicate Gained(before: map<string, Script>, after: map<string, Script>, id: string, s: Script) {
    id !in before && after == before[id := s]
  }

  function Ids(entries: seq<Entry>): set<string> { set e | e in entries :: e.id }

  lemma IdsAppend(entries: seq<Entry>, e: Entry)
    ensures Ids(entries + [e]) == Ids(entries) + {e.id} && Ids([]) == {}
  {
    assert forall x :: x in entries + [e] <==> x in entries || x == e;
  }

  /** The provider. Its listing may be cut into pages in any way, link them in any way and fail at
      any page, but a listing followed from the first page to an end has shown every script. */
  class Provider {
    const nextPath: string -> Option<string>  // a page's next link as a request path, unless it is refused
    var scripts: map<string, Script>
    var shown: set<string>                    // what the current walk through the pages has listed
    var cursor: Option<string>                // where that walk goes on
    ghost var log: seq<Event>
    ghost var pages: nat                      // pages asked for so far
    ghost var failures: nat                   // reads that failed so far
    ghost var visited: set<string>            // the pages of the current walk
    ghost var lastNext: string                // the next link of the last page

    constructor (nextPath: string -> Option<string>, scripts: map<string, Script>)
      ensures this.nextPath == nextPath && this.scripts == scripts && log == []
    {
      this.nextPath, this.scripts, shown, cursor := nextPath, scripts, {}, None;
      log := [];
    }

    /** A POST takes effect, if at all, before its reply; a reply with an id names what it made. */
    method Post(name: string, content: string) returns (r: Reply)
      modifies `scripts, `log
      ensures log == old(log) + [Posted(r)]
      ensures scripts == old(scripts) || exists id :: Gained(old(scripts), scripts, id, Script(name, content))
      ensures r.Created? && r.id != "" ==> r.id in scripts && scripts[r.id] == Script(name, content)
    {
      var id: string :| true;
      var code: int :| true;
      r := if code > 0 then Status(code) else if code == 0 then Transport else Undecodable;
      if id != "" && id !in scripts {
        if * {
          scripts := scripts[id := Script(name, content)];
          if * {
            r := Created(id);
          }
        }
      }
      if * {
        r := Created("");
      }
      log := log + [Posted(r)];
      assert scripts != old(scripts) ==> Gained(old(scripts), scripts, id, Script(name, content));
    }

    method GetPage(path: string) returns (r: Result<Page>)
      modifies `shown, `cursor, `pages, `failures, `visited, `lastNext
      ensures pages == old(pages) + 1
      ensures failures == old(failures) + (if r.Ok? then 0 else 1)
      ensures visited == (if path == START then {} else old(visited)) + {path}
      ensures r.Ok? ==> lastNext == r.value.next
      ensures r.Ok? ==> forall e :: e in r.value.entries ==> e.id in scripts && scripts[e.id].name == e.name
      ensures r.Ok? ==> shown == (if path == START then {} else old(shown)) + Ids(r.value.entries)
      ensures r.Ok? ==> cursor == if r.value.next == "" then None else nextPath(r.value.next)
      ensures r.Ok? && r.value.next == "" && (path == START || Some(path) == old(cursor)) ==> scripts.Keys <= shown
    {
      pages := pages + 1;
      visited := (if path == START then {} else visited) + {path};
      if * {
        failures := failures + 1;
        return Err;
      }
      if path == START {
        shown := {};
      }
      var next: string :| true;
      lastNext := next;
      var entries: seq<Entry> := [];
      var todo := scripts.Keys;
      ghost var before := shown;
      assert Ids(entries) == {};
      hide Ids;
      while todo != {}
        invariant todo <= scripts.Keys
        invariant forall e :: e in entries ==> e.id in scripts && scripts[e.id].name == e.name
        invariant shown == before + Ids(entries)
        invariant next == "" ==> scripts.Keys <= shown + todo
        invariant scripts == old(scripts)
        modifies `shown
        decreases todo
      {
        var id :| id in todo;
        todo := todo - {id};
        if next != "" {
          if * {
            continue;
          }
        }
        IdsAppend(entries, Entry(id, scripts[id].name));
        entries := entries + [Entry(id, scripts[id].name)];
        shown := shown + {id};
      }
      cursor := if next == "" then None else nextPath(next);
      return Ok(Page(entries, next));
    }

    method GetContent(id: string) returns (r: Result<string>)
      modifies `failures
      ensures r.Ok? ==> id in scripts && r.value == scripts[id].content
      ensures failures == old(failures) + (if r.Ok? then 0 else 1)
    {
      if id in scripts {
        if * {
          return Ok(scripts[id].content);
        }
      }
      failures := failures + 1;
      return Err;
    }

    /** The listing leads nowhere: its next link is refused, or goes back, or there are too many pages. */
    ghost predicate DeadEnd()
      reads this
    {
      && lastNext != ""
      && (nextPath(lastNext).None? || nextPath(lastNext).value in visited || |visited| >= MAX_PAGES)
    }
  }

  predicate NameTaken(scripts: map<string, Script>, name: string) {
    exists id :: id in scripts && scripts[id].name == name
  }

  /** Walks the listing to the first script of that name. It ends on every provider, and finding
      nothing means there is nothing. */
  method FindStartupScriptByName(p: Provider, name: string) returns (r: Result<Option<string>>)
    modifies p`shown, p`cursor, p`log, p`pages, p`failures, p`visited, p`lastNext
    // It fails only when a page cannot be read or the listing leads nowhere.
    ensures p.failures >= old(p.failures)
    ensures r.Err? ==> p.failures > old(p.failures) || (p.pages > old(p.pages) && p.DeadEnd())
    ensures r.Ok? && r.value.Some? ==> r.value.value in p.scripts && p.scripts[r.value.value].name == name
    ensures r.Ok? && r.value.None? ==> !NameTaken(p.scripts, name)
    ensures p.log == if r.Ok? && r.value.None? then old(p.log) + [LookupFoundNothing] else old(p.log)
  {
    var path := Some(START);
    var seen: set<string> := {};
    while path.Some?
      invariant p.log == old(p.log) && p.failures == old(p.failures)
      invariant |seen| <= MAX_PAGES && p.pages >= old(p.pages)
      invariant if seen == {} then path == Some(START) else START in seen && seen == p.visited && p.pages > old(p.pages)
      invariant seen != {} && path.Some? ==> p.lastNext != "" && p.nextPath(p.lastNext) == path
      invariant path.Some? ==> path == Some(START) || path == p.cursor
      invariant forall id :: id in p.scripts && id in p.shown && path != Some(START) ==> p.scripts[id].name != name
      invariant path.None? ==> p.scripts.Keys <= p.shown
      decreases MAX_PAGES - |seen|, path.Some?
    {
      if path.value in seen || |seen| >= MAX_PAGES {
        return Err;
      }
      seen := seen + {path.value};
      var page := p.GetPage(path.value);
      if page.Err? {
        return Err;
      }
      for i := 0 to |page.value.entries|
        invariant forall j :: 0 <= j < i ==> page.value.entries[j].name != name
        modifies {}
      {
        if page.value.entries[i].name == name {
          return Ok(Some(page.value.entries[i].id));
        }
      }
      if page.value.next == "" {
        path := None;
      } else {
        path := p.nextPath(page.value.next);
        if path.None? {
          return Err;
        }
      }
    }
    p.log := p.log + [LookupFoundNothing];
    return Ok(None);
  }

  predicate ServerSide(e: Event) { e.Posted? && e.reply.Status? && e.reply.code >= 500 }

  /** A reply that is neither an id nor a server-side error. */
  predicate Settles(e: Event) { e.Posted? && !ServerSide(e) && !(e.reply.Created? && e.reply.id != "") }

  predicate Conflicts(scripts: map<string, Script>, name: string, payload: string) {
    exists id :: id in scripts && scripts[id].name == name && scripts[id].content != payload
  }

  /** Every POST but the first follows a server-side error reply and a complete lookup that found
      nothing. */
  predicate RepeatsAreVerified(log: seq<Event>, from: nat) {
    forall i :: from < i < |log| && log[i].Posted? ==>
        i >= from + 2 && log[i - 1].LookupFoundNothing? && ServerSide(log[i - 2])
  }

  lemma RepeatsGrow(log: seq<Event>, from: nat, e: Event)
    requires RepeatsAreVerified(log, from) && from <= |log|
    requires e.Posted? && |log| > from ==>
        |log| >= from + 2 && log[|log| - 1].LookupFoundNothing? && ServerSide(log[|log| - 2])
    ensures RepeatsAreVerified(log + [e], from)
  {
  }

  lemma NothingPosted(log: seq<Event>)
    ensures RepeatsAreVerified(log, |log|)
  {
  }

  /** Where nothing of that name exists, the POST before the lookup took no effect. */
  lemma NothingGained(before: map<string, Script>, after: map<string, Script>, name: string, payload: string)
    requires after == before || exists id :: Gained(before, after, id, Script(name, payload))
    requires !NameTaken(after, name)
    ensures after == before
  {
  }

  /** At most one script is created, and a returned id holds exactly the submitted content. */
  method CreateStartupScript(p: Provider, name: string, payload: string) returns (r: Result<string>)
    modifies p
    ensures p.scripts == old(p.scripts) || exists id :: Gained(old(p.scripts), p.scripts, id, Script(name, payload))
    ensures r.Ok? ==> r.value in p.scripts && p.scripts[r.value] == Script(name, payload)
    ensures old(p.log) <= p.log && RepeatsAreVerified(p.log, |old(p.log)|)
    ensures |p.log| <= |old(p.log)| + 2 * MAX_ROUNDS
    // It gives up only on a reply that settles the matter, on a lookup or a content that cannot be read,
    // on a script of that name with other content, or after three rounds.
    ensures r.Err? ==>
              && |p.log| > |old(p.log)|
              && (var last := p.log[|p.log| - 1];
                  || Settles(last) || |p.log| == |old(p.log)| + 6
                  || (ServerSide(last) &&
                      (p.failures > old(p.failures) || p.DeadEnd() || Conflicts(p.scripts, name, payload))))
  {
    hide RepeatsAreVerified;
    assert RepeatsAreVerified(p.log, |old(p.log)|) by { NothingPosted(p.log); }
    for round := 1 to MAX_ROUNDS + 1
      invariant round > 1 ==> !NameTaken(p.scripts, name)
      invariant p.scripts == old(p.scripts) && p.failures >= old(p.failures)
      invariant old(p.log) <= p.log && |p.log| == |old(p.log)| + 2 * (round - 1)
      invariant RepeatsAreVerified(p.log, |old(p.log)|)
      invariant round > 1 ==> p.log[|p.log| - 1].LookupFoundNothing? && ServerSide(p.log[|p.log| - 2])
    {
      ghost var before := p.scripts;
      ghost var log := p.log;
      var reply := p.Post(name, payload);
      RepeatsGrow(log, |old(p.log)|, Posted(reply));
      RepeatsGrow(p.log, |old(p.log)|, LookupFoundNothing);
      if reply.Undecodable? {
        return Err;
      }
      if reply.Created? {
        return if reply.id == "" then Err else Ok(reply.id);
      }
      if !reply.Status? || reply.code < 500 {
        return Err;
      }
      ghost var posted := p.scripts;
      var found := FindStartupScriptByName(p, name);
      if found.Err? {
        return Err;
      }
      if found.value.Some? {
        var existing := p.GetContent(found.value.value);
        if existing.Err? || existing.value != payload {
          return Err;
        }
        return Ok(found.value.value);
      }
      NothingGained(before, posted, name, payload);
    }
    return Err;
  }
}
