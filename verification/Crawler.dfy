// The depth-bounded crawl (crates/kenjaku-ingest/src/crawler.rs, crawl_urls). A fixed function from a
// URL to what crawling it yields stands for the address check, the request and the link extraction.

module Crawler {
  import opened Wrappers
  import opened Text

  datatype Page<U> =
    | Blocked                 // the address check refuses the URL
    | Failed                  // no response, or not a success
    | Fetched(links: seq<U>)

  type Web<!U> = U -> Page<U>

  // ---- One turn of the worklist -------------------------------------------------------------

  datatype Task<U> = Task(url: U, depth: nat)

  // `depthAt` holds the visited URLs, each with the depth at which it was taken from the worklist.
  datatype State<U> = State(depthAt: map<U, nat>, toVisit: seq<Task<U>>, requested: seq<U>, discovered: seq<U>)

  function Start<U(==)>(entry: U): State<U> {
    State(map[], [Task(entry, 0)], [], [])
  }

  function Unseen<U(==)>(links: seq<U>, seen: set<U>, depth: nat): (r: seq<Task<U>>)
    ensures forall e :: e in r ==> e.depth == depth && e.url in links && e.url !in seen
    ensures forall l :: l in links && l !in seen ==> Task(l, depth) in r
  {
    if links == [] then [] else
      (if links[0] in seen then [] else [Task(links[0], depth)]) + Unseen(links[1..], seen, depth)
  }

  // The links are taken one by one and their order stays.
  lemma {:induction false} UnseenKeepsOrder<U>(a: seq<U>, b: seq<U>, link: U, seen: set<U>, depth: nat)
    ensures Unseen([link], seen, depth) == if link in seen then [] else [Task(link, depth)]
    ensures Unseen(a + b, seen, depth) == Unseen(a, seen, depth) + Unseen(b, seen, depth)
  {
    assert [link][1..] == [] && Unseen([], seen, depth) == [];
    if a == [] {
      assert a + b == b;
    } else {
      assert (a + b)[1..] == a[1..] + b;
      UnseenKeepsOrder(a[1..], b, link, seen, depth);
      var first := if a[0] in seen then [] else [Task(a[0], depth)];
      ConcatAssoc(first, Unseen(a[1..], seen, depth), Unseen(b, seen, depth));
    }
  }

  function Step<U(==)>(web: Web<U>, maxDepth: nat, s: State<U>): State<U>
    requires s.toVisit != []
  {
    var Task(url, depth) := s.toVisit[|s.toVisit| - 1];
    var rest := s.toVisit[..|s.toVisit| - 1];
    if url in s.depthAt || depth > maxDepth then s.(toVisit := rest)
    else
      var depthAt := s.depthAt[url := depth];
      match web(url)
      case Blocked => s.(depthAt := depthAt, toVisit := rest)
      case Failed => s.(depthAt := depthAt, toVisit := rest, requested := s.requested + [url])
      case Fetched(links) =>
        var more := if depth < maxDepth then Unseen(links, depthAt.Keys, depth + 1) else [];
        State(depthAt, rest + more, s.requested + [url], s.discovered + [url])
  }

  // What one turn adds to the worklist, in place of the entry it takes off.
  function Pushed<U(==)>(web: Web<U>, maxDepth: nat, s: State<U>): seq<Task<U>>
    requires s.toVisit != []
  {
    var Task(url, depth) := s.toVisit[|s.toVisit| - 1];
    if url in s.depthAt || depth >= maxDepth || !web(url).Fetched? then []
    else Unseen(web(url).links, s.depthAt[url := depth].Keys, depth + 1)
  }

  lemma {:induction false} StepStack<U>(web: Web<U>, maxDepth: nat, s: State<U>)
    requires s.toVisit != []
    ensures Step(web, maxDepth, s).toVisit == s.toVisit[..|s.toVisit| - 1] + Pushed(web, maxDepth, s)
  {
    var rest := s.toVisit[..|s.toVisit| - 1];
    var Task(url, depth) := s.toVisit[|s.toVisit| - 1];
    assert rest + [] == rest;
    if url !in s.depthAt && depth <= maxDepth {
      assert web(url).Fetched? || Pushed(web, maxDepth, s) == [];
    }
  }

  // ---- Termination, on finite and infinite link graphs alike --------------------------------

  // The size of the tree of links below `url`, `fuel` links deep.
  function TreeSize<U>(web: Web<U>, url: U, fuel: nat): (n: nat)
    ensures n > 0
    decreases fuel, 0
  {
    if fuel == 0 || !web(url).Fetched? then 1 else 1 + LinksSize(web, web(url).links, fuel - 1)
  }

  function LinksSize<U>(web: Web<U>, links: seq<U>, fuel: nat): nat
    decreases fuel, |links|
  {
    if links == [] then 0 else TreeSize(web, links[0], fuel) + LinksSize(web, links[1..], fuel)
  }

  function Fuel(maxDepth: nat, depth: nat): nat {
    if depth <= maxDepth then maxDepth - depth else 0
  }

  function TaskSize<U>(web: Web<U>, maxDepth: nat, t: Task<U>): nat {
    TreeSize(web, t.url, Fuel(maxDepth, t.depth))
  }

  function Weight<U>(web: Web<U>, maxDepth: nat, stack: seq<Task<U>>): nat {
    if stack == [] then 0 else
      TaskSize(web, maxDepth, stack[0]) + Weight(web, maxDepth, stack[1..])
  }

  lemma {:induction false} WeightAppend<U>(web: Web<U>, maxDepth: nat, a: seq<Task<U>>, b: seq<Task<U>>)
    ensures Weight(web, maxDepth, a + b) == Weight(web, maxDepth, a) + Weight(web, maxDepth, b)
  {
    if a == [] {
      assert a + b == b;
    } else {
      assert (a + b)[1..] == a[1..] + b;
      WeightAppend(web, maxDepth, a[1..], b);
    }
  }

  lemma {:induction false} UnseenWeighsNoMore<U>(web: Web<U>, maxDepth: nat, links: seq<U>, seen: set<U>, depth: nat)
    requires depth <= maxDepth
    ensures Weight(web, maxDepth, Unseen(links, seen, depth)) <= LinksSize(web, links, maxDepth - depth)
  {
    if links != [] {
      UnseenWeighsNoMore(web, maxDepth, links[1..], seen, depth);
      var first := if links[0] in seen then [] else [Task(links[0], depth)];
      WeightAppend(web, maxDepth, first, Unseen(links[1..], seen, depth));
      assert first != [] ==> first[1..] == [];
    }
  }

  lemma {:induction false} WeightOfLast<U>(web: Web<U>, maxDepth: nat, stack: seq<Task<U>>)
    requires stack != []
    ensures Weight(web, maxDepth, stack) ==
            Weight(web, maxDepth, stack[..|stack| - 1]) + TaskSize(web, maxDepth, stack[|stack| - 1])
  {
    var rest, last := stack[..|stack| - 1], [stack[|stack| - 1]];
    assert stack == rest + last;
    WeightAppend(web, maxDepth, rest, last);
  }

  lemma {:induction false} PushedWeighsLess<U>(web: Web<U>, maxDepth: nat, s: State<U>)
    requires s.toVisit != []
    ensures Weight(web, maxDepth, Pushed(web, maxDepth, s)) < TaskSize(web, maxDepth, s.toVisit[|s.toVisit| - 1])
  {
    var Task(url, depth) := s.toVisit[|s.toVisit| - 1];
    if url !in s.depthAt && depth < maxDepth && web(url).Fetched? {
      UnseenWeighsNoMore(web, maxDepth, web(url).links, s.depthAt[url := depth].Keys, depth + 1);
    }
  }

  // Every turn lowers the weight, so the crawl ends.
  lemma {:induction false} StepLowersWeight<U>(web: Web<U>, maxDepth: nat, s: State<U>)
    requires s.toVisit != []
    ensures Weight(web, maxDepth, Step(web, maxDepth, s).toVisit) < Weight(web, maxDepth, s.toVisit)
  {
    StepStack(web, maxDepth, s);
    WeightOfLast(web, maxDepth, s.toVisit);
    WeightAppend(web, maxDepth, s.toVisit[..|s.toVisit| - 1], Pushed(web, maxDepth, s));
    PushedWeighsLess(web, maxDepth, s);
  }

  function Run<U(==)>(web: Web<U>, maxDepth: nat, s: State<U>): (r: State<U>)
    ensures r.toVisit == []
    decreases Weight(web, maxDepth, s.toVisit)
  {
    if s.toVisit == [] then s else
      StepLowersWeight(web, maxDepth, s);
      Run(web, maxDepth, Step(web, maxDepth, s))
  }

  function Crawl<U(==)>(web: Web<U>, entry: U, maxDepth: nat): State<U> {
    Run(web, maxDepth, Start(entry))
  }

  method PushUnseen<U(==)>(stack: seq<Task<U>>, links: seq<U>, visited: set<U>, depth: nat)
    returns (toVisit: seq<Task<U>>)
    ensures toVisit == stack + Unseen(links, visited, depth)
  {
    toVisit := stack;
    for i := 0 to |links|
      invariant toVisit + Unseen(links[i..], visited, depth) == stack + Unseen(links, visited, depth)
    {
      assert links[i..][1..] == links[i + 1..];
      ghost var one := if links[i] in visited then [] else [Task(links[i], depth)];
      assert Unseen(links[i..], visited, depth) == one + Unseen(links[i + 1..], visited, depth);
      ConcatAssoc(toVisit, one, Unseen(links[i + 1..], visited, depth));
      assert toVisit + [] == toVisit;
      if links[i] !in visited {
        toVisit := toVisit + [Task(links[i], depth)];
      }
    }
    assert links[|links|..] == [];
  }

  method CrawlUrls<U(==)>(web: Web<U>, entry: U, maxDepth: nat)
    returns (r: Result<seq<U>, string>, ghost requests: seq<U>)
    ensures r.Failure? <==> web(entry).Blocked?
    ensures r.Success? ==> r.value == Crawl(web, entry, maxDepth).discovered
    ensures requests == if r.Failure? then [] else Crawl(web, entry, maxDepth).requested
  {
    requests := [];
    if web(entry).Blocked? {
      return Failure("entry URL refused"), requests;
    }
    var visited: set<U> := {};
    var toVisit := [Task(entry, 0)];
    var discovered: seq<U> := [];
    ghost var depthAt: map<U, nat> := map[];
    while toVisit != []
      invariant visited == depthAt.Keys
      invariant Run(web, maxDepth, State(depthAt, toVisit, requests, discovered)) == Crawl(web, entry, maxDepth)
      decreases Weight(web, maxDepth, toVisit)
    {
      ghost var s := State(depthAt, toVisit, requests, discovered);
      StepLowersWeight(web, maxDepth, s);
      var Task(url, depth) := toVisit[|toVisit| - 1];
      toVisit := toVisit[..|toVisit| - 1];
      if url !in visited && depth <= maxDepth {
        visited, depthAt := visited + {url}, depthAt[url := depth];
        assert visited == depthAt.Keys && toVisit + [] == toVisit;
        var page := web(url);
        if !page.Blocked? {
          requests := requests + [url];
        }
        if page.Fetched? {
          discovered := discovered + [url];
          if depth < maxDepth {
            toVisit := PushUnseen(toVisit, page.links, visited, depth + 1);
          }
        }
      }
      assert State(depthAt, toVisit, requests, discovered) == Step(web, maxDepth, s);
    }
    r := Success(discovered);
  }

  // ---- Every reachable state -----------------------------------------------------------------

  // A path of n links leads from the entry to u; every page on it but u itself was fetched.
  ghost predicate Reaches<U(!new)>(web: Web<U>, entry: U, u: U, n: nat) {
    if n == 0 then u == entry else
      exists v :: Reaches(web, entry, v, n - 1) && LinksTo(web, v, u)
  }

  predicate LinksTo<U(==)>(web: Web<U>, v: U, u: U) {
    web(v).Fetched? && u in web(v).links
  }

  predicate Waits<U(==)>(s: State<U>, u: U) {
    exists k :: 0 <= k < |s.toVisit| && s.toVisit[k].url == u
  }

  predicate NoDuplicates<U(==)>(xs: seq<U>) {
    forall i, j :: 0 <= i < j < |xs| ==> xs[i] != xs[j]
  }

  ghost predicate Sound<U(!new)>(web: Web<U>, entry: U, maxDepth: nat, s: State<U>) {
    && (forall k :: 0 <= k < |s.toVisit| ==>
          s.toVisit[k].depth <= maxDepth && Reaches(web, entry, s.toVisit[k].url, s.toVisit[k].depth))
    && (forall u :: u in s.depthAt ==> s.depthAt[u] <= maxDepth && Reaches(web, entry, u, s.depthAt[u]))
    && (entry in s.depthAt ==> s.depthAt[entry] == 0)
    && (entry !in s.depthAt ==> s.toVisit == [Task(entry, 0)])
  }

  ghost predicate Recorded<U(!new)>(web: Web<U>, s: State<U>) {
    && NoDuplicates(s.requested) && NoDuplicates(s.discovered)
    && (forall u :: u in s.requested <==> u in s.depthAt && !web(u).Blocked?)
    && (forall u :: u in s.discovered <==> u in s.depthAt && web(u).Fetched?)
  }

  // Links of pages that were fetched below the depth limit are visited, or wait to be.
  ghost predicate Closed<U(!new)>(web: Web<U>, maxDepth: nat, s: State<U>) {
    forall v, u :: v in s.depthAt && s.depthAt[v] < maxDepth && LinksTo(web, v, u) ==> u in s.depthAt || Waits(s, u)
  }

  lemma {:induction false} PushedAreReached<U(!new)>(web: Web<U>, entry: U, maxDepth: nat, s: State<U>, e: Task<U>)
    requires s.toVisit != [] && Sound(web, entry, maxDepth, s) && e in Pushed(web, maxDepth, s)
    ensures e.depth <= maxDepth && Reaches(web, entry, e.url, e.depth)
  {
    var Task(url, depth) := s.toVisit[|s.toVisit| - 1];
    assert LinksTo(web, url, e.url) && Reaches(web, entry, url, depth);
  }

  lemma {:induction false} StepKeepsSound<U(!new)>(web: Web<U>, entry: U, maxDepth: nat, s: State<U>)
    requires s.toVisit != [] && Sound(web, entry, maxDepth, s)
    ensures Sound(web, entry, maxDepth, Step(web, maxDepth, s))
  {
    var t, more := Step(web, maxDepth, s), Pushed(web, maxDepth, s);
    var rest, last := s.toVisit[..|s.toVisit| - 1], s.toVisit[|s.toVisit| - 1];
    StepStack(web, maxDepth, s);
    forall k | 0 <= k < |more|
      ensures more[k].depth <= maxDepth && Reaches(web, entry, more[k].url, more[k].depth)
    {
      PushedAreReached(web, entry, maxDepth, s, more[k]);
    }
    StackIsSound(web, entry, maxDepth, rest, more, t.toVisit);
    assert t.depthAt == s.depthAt || t.depthAt == s.depthAt[last.url := last.depth];
  }

  lemma {:induction false} StackIsSound<U(!new)>(
    web: Web<U>, entry: U, maxDepth: nat, a: seq<Task<U>>, b: seq<Task<U>>, stack: seq<Task<U>>)
    requires stack == a + b
    requires forall k :: 0 <= k < |a| ==> a[k].depth <= maxDepth && Reaches(web, entry, a[k].url, a[k].depth)
    requires forall k :: 0 <= k < |b| ==> b[k].depth <= maxDepth && Reaches(web, entry, b[k].url, b[k].depth)
    ensures forall k :: 0 <= k < |stack| ==>
              stack[k].depth <= maxDepth && Reaches(web, entry, stack[k].url, stack[k].depth)
  {
  }

  lemma {:induction false} StepKeepsRecorded<U(!new)>(web: Web<U>, maxDepth: nat, s: State<U>)
    requires s.toVisit != [] && Recorded(web, s)
    ensures Recorded(web, Step(web, maxDepth, s))
  {
    var Task(url, depth) := s.toVisit[|s.toVisit| - 1];
    assert url !in s.depthAt ==> url !in s.requested && url !in s.discovered;
  }

  lemma {:induction false} StepKeepsClosed<U(!new)>(web: Web<U>, maxDepth: nat, s: State<U>)
    requires s.toVisit != [] && Closed(web, maxDepth, s)
    requires forall k :: 0 <= k < |s.toVisit| ==> s.toVisit[k].depth <= maxDepth
    ensures Closed(web, maxDepth, Step(web, maxDepth, s))
  {
    var t, n, more := Step(web, maxDepth, s), |s.toVisit| - 1, Pushed(web, maxDepth, s);
    StepStack(web, maxDepth, s);
    forall v, u | v in t.depthAt && t.depthAt[v] < maxDepth && LinksTo(web, v, u)
      ensures u in t.depthAt || Waits(t, u)
    {
      if v in s.depthAt {
        if u !in s.depthAt {
          var k :| 0 <= k < |s.toVisit| && s.toVisit[k].url == u;
          assert k < n ==> t.toVisit[k] == s.toVisit[k];
        }
      } else if u !in t.depthAt {
        var k := PushedWaits(web, maxDepth, s, u);
        assert t.toVisit[n + k] == more[k];
      }
    }
  }

  lemma {:induction false} PushedWaits<U>(web: Web<U>, maxDepth: nat, s: State<U>, u: U) returns (k: nat)
    requires s.toVisit != []
    requires var Task(v, depth) := s.toVisit[|s.toVisit| - 1];
             v !in s.depthAt && depth < maxDepth && LinksTo(web, v, u) && u != v && u !in s.depthAt
    ensures k < |Pushed(web, maxDepth, s)| && Pushed(web, maxDepth, s)[k].url == u
  {
    var more, depth := Pushed(web, maxDepth, s), s.toVisit[|s.toVisit| - 1].depth;
    assert Task(u, depth + 1) in more;
    k :| k < |more| && more[k] == Task(u, depth + 1);
  }

  lemma {:induction false} RunKeepsAll<U(!new)>(web: Web<U>, entry: U, maxDepth: nat, s: State<U>)
    requires Sound(web, entry, maxDepth, s) && Recorded(web, s) && Closed(web, maxDepth, s)
    ensures var r := Run(web, maxDepth, s);
            Sound(web, entry, maxDepth, r) && Recorded(web, r) && Closed(web, maxDepth, r)
    decreases Weight(web, maxDepth, s.toVisit)
  {
    if s.toVisit != [] {
      StepLowersWeight(web, maxDepth, s);
      StepKeepsSound(web, entry, maxDepth, s);
      StepKeepsRecorded(web, maxDepth, s);
      StepKeepsClosed(web, maxDepth, s);
      RunKeepsAll(web, entry, maxDepth, Step(web, maxDepth, s));
    }
  }

  // One of the first n pages links to u.
  ghost predicate LinkedFrom<U>(web: Web<U>, pages: seq<U>, n: nat, u: U) {
    exists j :: 0 <= j < n && j < |pages| && LinksTo(web, pages[j], u)
  }

  // The entry page comes first; every other page that is found or waits has a link from one found before.
  ghost predicate InOrder<U>(web: Web<U>, entry: U, s: State<U>) {
    && (forall k :: 0 <= k < |s.toVisit| ==>
          || (s.discovered == [] && s.toVisit[k].url == entry)
          || LinkedFrom(web, s.discovered, |s.discovered|, s.toVisit[k].url))
    && (forall i :: 0 <= i < |s.discovered| ==>
          if i == 0 then s.discovered[i] == entry else LinkedFrom(web, s.discovered, i, s.discovered[i]))
  }

  lemma {:induction false} StillLinked<U>(web: Web<U>, pages: seq<U>, more: seq<U>, n: nat, m: nat, u: U)
    requires LinkedFrom(web, pages, n, u) && n <= m && n <= |pages| && m <= |pages + more|
    ensures LinkedFrom(web, pages + more, m, u)
  {
    var j :| 0 <= j < n && j < |pages| && LinksTo(web, pages[j], u);
    assert (pages + more)[j] == pages[j];
  }

  lemma {:induction false} PageKeepsOrder<U>(
    web: Web<U>, entry: U, s: State<U>, url: U, rest: seq<Task<U>>, more: seq<Task<U>>)
    requires InOrder(web, entry, s) && rest <= s.toVisit && web(url).Fetched?
    requires (s.discovered == [] && url == entry) || LinkedFrom(web, s.discovered, |s.discovered|, url)
    requires s.discovered == [] ==> rest == []
    requires forall k :: 0 <= k < |more| ==> LinksTo(web, url, more[k].url)
    ensures InOrder(web, entry, s.(toVisit := rest + more, discovered := s.discovered + [url]))
  {
    var before, pages, stack := s.discovered, s.discovered + [url], rest + more;
    forall k | 0 <= k < |stack| ensures LinkedFrom(web, pages, |pages|, stack[k].url) {
      if k < |rest| {
        assert stack[k] == s.toVisit[k];
        StillLinked(web, before, [url], |before|, |pages|, stack[k].url);
      } else {
        assert stack[k] == more[k - |rest|] && pages[|before|] == url;
      }
    }
    forall i | 0 <= i < |pages|
      ensures if i == 0 then pages[i] == entry else LinkedFrom(web, pages, i, pages[i])
    {
      if 0 < i {
        assert i < |before| ==> pages[i] == before[i];
        StillLinked(web, before, [url], i, i, pages[i]);
      }
    }
  }

  lemma {:induction false} StepKeepsOrder<U(!new)>(web: Web<U>, entry: U, maxDepth: nat, s: State<U>)
    requires s.toVisit != [] && Sound(web, entry, maxDepth, s) && Recorded(web, s) && InOrder(web, entry, s)
    ensures InOrder(web, entry, Step(web, maxDepth, s))
  {
    var n := |s.toVisit| - 1;
    var url, depth, rest, more := s.toVisit[n].url, s.toVisit[n].depth, s.toVisit[..n], Pushed(web, maxDepth, s);
    StepStack(web, maxDepth, s);
    if url !in s.depthAt && depth <= maxDepth && web(url).Fetched? {
      forall k | 0 <= k < |more| ensures LinksTo(web, url, more[k].url) {
        assert more[k] in more;
      }
      if s.discovered == [] {
        assert entry !in s.depthAt;
      }
      PageKeepsOrder(web, entry, s, url, rest, more);
      assert Step(web, maxDepth, s).discovered == s.discovered + [url];
    } else {
      assert more == [] && rest + more == rest;
      assert forall k :: 0 <= k < |rest| ==> rest[k] == s.toVisit[k];
    }
  }

  lemma {:induction false} RunKeepsOrder<U(!new)>(web: Web<U>, entry: U, maxDepth: nat, s: State<U>)
    requires Sound(web, entry, maxDepth, s) && Recorded(web, s) && InOrder(web, entry, s)
    ensures InOrder(web, entry, Run(web, maxDepth, s))
    decreases Weight(web, maxDepth, s.toVisit)
  {
    if s.toVisit != [] {
      StepLowersWeight(web, maxDepth, s);
      StepKeepsSound(web, entry, maxDepth, s);
      StepKeepsRecorded(web, maxDepth, s);
      StepKeepsOrder(web, entry, maxDepth, s);
      RunKeepsOrder(web, entry, maxDepth, Step(web, maxDepth, s));
    }
  }

  // The pages come in the order in which they were visited: the entry first, every other behind one that
  // links to it.
  lemma {:induction false} CrawlIsInOrder<U(!new)>(web: Web<U>, entry: U, maxDepth: nat, i: nat)
    requires i < |Crawl(web, entry, maxDepth).discovered|
    ensures var pages := Crawl(web, entry, maxDepth).discovered;
            if i == 0 then pages[0] == entry else exists j :: 0 <= j < i && LinksTo(web, pages[j], pages[i])
  {
    RunKeepsOrder(web, entry, maxDepth, Start(entry));
  }

  // ---- What a finished crawl has found -------------------------------------------------------

  // Soundness: no URL is requested twice, and the pages discovered are pages that can be fetched and are
  // at most maxDepth links away.
  lemma {:induction false} CrawlIsSound<U(!new)>(web: Web<U>, entry: U, maxDepth: nat)
    ensures var r := Crawl(web, entry, maxDepth);
            && NoDuplicates(r.requested) && NoDuplicates(r.discovered)
            && forall u :: u in r.discovered ==>
                 u in r.depthAt && r.depthAt[u] <= maxDepth && web(u).Fetched? && Reaches(web, entry, u, r.depthAt[u])
  {
    RunKeepsAll(web, entry, maxDepth, Start(entry));
  }

  // Closure: the links of every page fetched below the limit have been visited.
  lemma {:induction false} CrawlIsClosed<U(!new)>(web: Web<U>, entry: U, maxDepth: nat)
    ensures var r := Crawl(web, entry, maxDepth);
            && entry in r.depthAt && r.depthAt[entry] == 0
            && (forall u :: u in r.discovered <==> u in r.depthAt && web(u).Fetched?)
            && forall v, u :: v in r.depthAt && r.depthAt[v] < maxDepth && LinksTo(web, v, u) ==> u in r.depthAt
  {
    RunKeepsAll(web, entry, maxDepth, Start(entry));
  }

  ghost predicate Within<U(!new)>(web: Web<U>, entry: U, u: U, limit: int) {
    exists n: nat :: n <= limit && Reaches(web, entry, u, n)
  }

  // What the crawl's documentation promises: the pages up to maxDepth links away.
  ghost predicate Complete<U(!new)>(web: Web<U>, entry: U, maxDepth: nat) {
    forall u :: web(u).Fetched? && Within(web, entry, u, maxDepth) ==> u in Crawl(web, entry, maxDepth).discovered
  }

  // u was first taken from the worklist at the depth limit, so its links were not followed, although a
  // shorter path leads to it.
  ghost predicate CutShort<U(!new)>(web: Web<U>, entry: U, maxDepth: nat, u: U) {
    var r := Crawl(web, entry, maxDepth);
    u in r.depthAt && r.depthAt[u] == maxDepth && Within(web, entry, u, maxDepth - 1)
  }

  // The promise is kept exactly when whatever a page cut short links to was found through another page.
  lemma {:induction false} CompleteUnlessCutShort<U(!new)>(web: Web<U>, entry: U, maxDepth: nat)
    ensures Complete(web, entry, maxDepth) <==>
            forall v, u :: CutShort(web, entry, maxDepth, v) && LinksTo(web, v, u) && web(u).Fetched? ==>
              u in Crawl(web, entry, maxDepth).discovered
  {
    var r := Crawl(web, entry, maxDepth);
    if Complete(web, entry, maxDepth) {
      forall v, u | CutShort(web, entry, maxDepth, v) && LinksTo(web, v, u) && web(u).Fetched?
        ensures u in r.discovered
      {
        var n: nat :| n <= maxDepth - 1 && Reaches(web, entry, v, n);
        assert Reaches(web, entry, u, n + 1);
      }
    }
    if forall v, u :: CutShort(web, entry, maxDepth, v) && LinksTo(web, v, u) && web(u).Fetched? ==> u in r.discovered {
      forall u | web(u).Fetched? && Within(web, entry, u, maxDepth) ensures u in r.discovered {
        var n: nat :| n <= maxDepth && Reaches(web, entry, u, n);
        ReachedIsFound(web, entry, maxDepth, u, n);
      }
    }
  }

  lemma {:induction false} ReachedIsFound<U(!new)>(web: Web<U>, entry: U, maxDepth: nat, u: U, n: nat)
    requires forall v, u :: CutShort(web, entry, maxDepth, v) && LinksTo(web, v, u) && web(u).Fetched? ==>
               u in Crawl(web, entry, maxDepth).discovered
    requires n <= maxDepth && Reaches(web, entry, u, n) && web(u).Fetched?
    ensures u in Crawl(web, entry, maxDepth).discovered
  {
    CrawlIsClosed(web, entry, maxDepth);
    CrawlIsSound(web, entry, maxDepth);
    if n > 0 {
      var v :| Reaches(web, entry, v, n - 1) && LinksTo(web, v, u);
      ReachedIsFound(web, entry, maxDepth, v, n - 1);
      var r := Crawl(web, entry, maxDepth);
      if r.depthAt[v] == maxDepth {
        assert CutShort(web, entry, maxDepth, v);
      }
    }
  }

  // A condition on the links alone: no page is reached by a path of exactly maxDepth links and also by a
  // shorter one.
  ghost predicate NoShortcuts<U(!new)>(web: Web<U>, entry: U, maxDepth: nat) {
    forall u :: Reaches(web, entry, u, maxDepth) ==> !Within(web, entry, u, maxDepth - 1)
  }

  lemma {:induction false} CompleteWithoutShortcuts<U(!new)>(web: Web<U>, entry: U, maxDepth: nat)
    requires NoShortcuts(web, entry, maxDepth)
    ensures Complete(web, entry, maxDepth)
  {
    RunKeepsAll(web, entry, maxDepth, Start(entry));
    CompleteUnlessCutShort(web, entry, maxDepth);
  }

  // When the limit is never met, the crawl finds exactly the pages that can be reached at all.
  lemma {:induction false} UnlimitedCrawlIsExact<U(!new)>(web: Web<U>, entry: U, maxDepth: nat, u: U)
    requires forall v :: v in Crawl(web, entry, maxDepth).depthAt ==> Crawl(web, entry, maxDepth).depthAt[v] < maxDepth
    ensures u in Crawl(web, entry, maxDepth).discovered <==>
            web(u).Fetched? && exists n: nat :: Reaches(web, entry, u, n)
  {
    CrawlIsSound(web, entry, maxDepth);
    CrawlIsClosed(web, entry, maxDepth);
    var r := Crawl(web, entry, maxDepth);
    if u in r.discovered {
      assert Reaches(web, entry, u, r.depthAt[u]);
    } else if n: nat :| Reaches(web, entry, u, n) {
      AllReachedAreVisited(web, entry, maxDepth, u, n);
    }
  }

  lemma {:induction false} AllReachedAreVisited<U(!new)>(web: Web<U>, entry: U, maxDepth: nat, u: U, n: nat)
    requires forall v :: v in Crawl(web, entry, maxDepth).depthAt ==> Crawl(web, entry, maxDepth).depthAt[v] < maxDepth
    requires Reaches(web, entry, u, n)
    ensures u in Crawl(web, entry, maxDepth).depthAt
  {
    CrawlIsClosed(web, entry, maxDepth);
    if n > 0 {
      var v :| Reaches(web, entry, v, n - 1) && LinksTo(web, v, u);
      AllReachedAreVisited(web, entry, maxDepth, v, n - 1);
    }
  }

  // ---- For which limits the promise holds on every web ---------------------------------------

  // Page 0 links to page m and to a chain of pages 1, 2, ... that also ends at m; m links to m + 1.
  function Detour(m: nat): Web<nat> {
    (u: nat) => if u == 0 then Fetched([m, 1]) else if u <= m then Fetched([u + 1]) else Fetched([])
  }

  lemma {:induction false} UnseenCons<U>(u: U, links: seq<U>, seen: set<U>, depth: nat)
    requires u !in seen
    ensures Unseen([u] + links, seen, depth) == [Task(u, depth)] + Unseen(links, seen, depth)
  {
    assert ([u] + links)[1..] == links;
  }

  lemma {:induction false} DetourSteps(m: nat, i: nat, s: State<nat>)
    requires 1 <= i < m && s.toVisit == [Task(m, 1), Task(i, i)]
    requires forall u: nat :: u in s.depthAt <==> u < i
    ensures var t := Step(Detour(m), m, s);
            t.depthAt == s.depthAt[i := i] && t.toVisit == [Task(m, 1), Task(i + 1, i + 1)]
  {
    var seen := s.depthAt[i := i].Keys;
    assert s.toVisit[..1] == [Task(m, 1)];
    assert Detour(m)(i) == Fetched([i + 1]);
    UnseenCons<nat>(i + 1, [], seen, i + 1);
    assert [i + 1] + [] == [i + 1];
    assert Unseen<nat>([i + 1], seen, i + 1) == [Task(i + 1, i + 1)];
    assert [Task(m, 1)] + [Task(i + 1, i + 1)] == [Task(m, 1), Task(i + 1, i + 1)];
  }

  // In the middle of the chain: m waits from the first page, i is about to be taken.
  lemma {:induction false} DetourWalks(m: nat, i: nat, s: State<nat>)
    requires 1 <= i <= m && s.toVisit == [Task(m, 1), Task(i, i)]
    requires forall u: nat :: u in s.depthAt <==> u < i
    ensures m + 1 !in Run(Detour(m), m, s).depthAt
    decreases m - i
  {
    StepLowersWeight(Detour(m), m, s);
    var t := Step(Detour(m), m, s);
    if i < m {
      DetourSteps(m, i, s);
      DetourWalks(m, i + 1, t);
    } else {
      assert t.toVisit == [Task(m, 1)];
      DetourEnds(m, t);
    }
  }

  lemma {:induction false} DetourEnds(m: nat, t: State<nat>)
    requires t.toVisit == [Task(m, 1)] && m in t.depthAt
    ensures Run(Detour(m), m, t).depthAt == t.depthAt
  {
    StepLowersWeight(Detour(m), m, t);
    assert Step(Detour(m), m, t) == t.(toVisit := []);
  }

  lemma {:induction false} DetourStarts(m: nat)
    requires m >= 2
    ensures Step(Detour(m), m, Start(0)) == State(map[0 := 0], [Task(m, 1), Task(1, 1)], [0], [0])
  {
    UnseenCons<nat>(1, [], {0}, 1);
    UnseenCons<nat>(m, [1], {0}, 1);
    assert [1] + [] == [1] && [m] + [1] == [m, 1];
    assert Unseen<nat>([m, 1], {0}, 1) == [Task(m, 1), Task(1, 1)];
    assert map[0 := 0].Keys == {0};
  }

  lemma {:induction false} DetourMisses(m: nat)
    requires m >= 2
    ensures m + 1 !in Crawl(Detour(m), 0, m).discovered
  {
    var web := Detour(m);
    StepLowersWeight(web, m, Start(0));
    DetourStarts(m);
    DetourWalks(m, 1, State(map[0 := 0], [Task(m, 1), Task(1, 1)], [0], [0]));
    CrawlIsClosed(web, 0, m);
  }

  // Page m + 1 is two links away and is not found.
  lemma {:induction false} DetourIsCutShort(m: nat)
    requires m >= 2
    ensures !Complete(Detour(m), 0, m)
  {
    var web, last: nat := Detour(m), m + 1;
    DetourMisses(m);
    assert Reaches(web, 0, 0, 0) && LinksTo(web, 0, m) && LinksTo(web, m, last);
    assert Reaches(web, 0, m, 1);
    assert Reaches(web, 0, last, 2);
    assert web(last).Fetched? && Within(web, 0, last, m);
  }

  // The crawl finds every page up to maxDepth links away, on every web, exactly for limits 0 and 1.
  lemma {:induction false} CompleteOnEveryWeb(maxDepth: nat)
    ensures (forall web: Web<nat>, entry: nat :: Complete(web, entry, maxDepth)) <==> maxDepth <= 1
  {
    if maxDepth <= 1 {
      forall web: Web<nat>, entry: nat ensures Complete(web, entry, maxDepth) {
        ShallowCrawlIsComplete(web, entry, maxDepth);
      }
    } else {
      DetourIsCutShort(maxDepth);
    }
  }

  lemma {:induction false} ShallowCrawlIsComplete<U(!new)>(web: Web<U>, entry: U, maxDepth: nat)
    requires maxDepth <= 1
    ensures Complete(web, entry, maxDepth)
  {
    CompleteUnlessCutShort(web, entry, maxDepth);
    CrawlIsClosed(web, entry, maxDepth);
    forall v ensures !CutShort(web, entry, maxDepth, v) {
      if n: nat :| n <= maxDepth - 1 && Reaches(web, entry, v, n) {
        assert n == 0 && v == entry;
      }
    }
  }
}
