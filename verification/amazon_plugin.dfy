/** The rewrite the plugin applies to a parsed document, and the polling job
    that later fills in each placeholder it leaves. The traversal of
    `unist-util-visit` is a recursive map over the tree, visiting each node
    before its children; the random placeholder tokens come from a supplied
    `token` sequence, consumed in visiting order; whether the live document
    contains a placeholder at a given poll is an input. */
module AmazonPlugin {
  import opened Wrappers
  import opened AmazonUrl
  import opened AmazonCard

  /** The element name the plugin rewrites, and the node type it sets. */
  const Tag := "amazon"
  const RawHtml := "html"

  /** The start every placeholder value shares. */
  const PlaceholderOpen := "<div id=\"amazon-"

  /** A document node: the fields the plugin reads and writes. */
  datatype Node = Node(
    name: string,
    nodeType: string,
    attributes: map<string, string>,
    children: seq<Node>,
    value: string)

  /** `n.attributes[key]`: `undefined` when absent. */
  function Attribute(n: Node, key: string): Option<string>
  {
    if key in n.attributes then Some(n.attributes[key]) else None
  }

  /** `"amazon-" + token`, the id of a placeholder element. */
  function PlaceholderId(token: string): string
  {
    "amazon-" + token
  }

  /** The markup written into a rewritten node: an empty element with the id. */
  function Placeholder(id: string): string
  {
    "<div id=\"" + id + "\"></div>"
  }

  /** A polling job: waits for its placeholder to appear in the live document,
      fills it once, then stops. */
  datatype JobState = Pending | Resolved

  datatype Job = Job(
    id: string,
    asin: Option<string>,
    title: Option<string>,
    url: Option<string>,
    state: JobState)

  datatype Visited = Visited(node: Node, jobs: seq<Job>)

  datatype VisitedForest = VisitedForest(nodes: seq<Node>, jobs: seq<Job>)

  /** The visitor body on one node: an `amazon` element becomes a raw-HTML
      placeholder and starts a pending job that captures its three
      attributes; any other node is left as it is. */
  function VisitNode(n: Node, token: string): (r: Visited)
    ensures r.node.name == n.name && r.node.attributes == n.attributes && r.node.children == n.children
    ensures n.name != Tag ==> r.node == n && r.jobs == []
    ensures n.name == Tag ==>
      && r.node.nodeType == RawHtml
      && |r.jobs| == 1
      && r.jobs[0].id == PlaceholderId(token)
      && r.node.value == Placeholder(r.jobs[0].id)
      && r.jobs[0].asin == Attribute(n, "asin")
      && r.jobs[0].title == Attribute(n, "title")
      && r.jobs[0].url == Attribute(n, "url")
      && r.jobs[0].state == Pending
  {
    if n.name != Tag then Visited(n, [])
    else
      var id := PlaceholderId(token);
      var job := Job(id, Attribute(n, "asin"), Attribute(n, "title"), Attribute(n, "url"), Pending);
      Visited(n.(nodeType := RawHtml, value := Placeholder(id)), [job])
  }

  /** The `amazon` elements of a tree, in the order the visit meets them:
      a node before its children, siblings left to right. */
  function Tagged(n: Node): seq<Node>
    decreases n
  {
    (if n.name == Tag then [n] else []) + TaggedForest(n.children)
  }

  function TaggedForest(ns: seq<Node>): seq<Node>
    decreases ns
  {
    if |ns| == 0 then [] else Tagged(ns[0]) + TaggedForest(ns[1..])
  }

  /** `job` holds the three attributes of the element `n` it was started for. */
  predicate Captures(job: Job, n: Node)
  {
    && job.asin == Attribute(n, "asin")
    && job.title == Attribute(n, "title")
    && job.url == Attribute(n, "url")
  }

  /** Job `i` was started for the element `tagged[i]`, whose rewritten form
      `placeholders[i]` carries that job's id. */
  predicate Matched(tagged: seq<Node>, placeholders: seq<Node>, jobs: seq<Job>)
  {
    && |tagged| == |jobs|
    && |placeholders| == |jobs|
    && forall i :: 0 <= i < |jobs| ==>
      Captures(jobs[i], tagged[i]) && placeholders[i].value == Placeholder(jobs[i].id)
  }

  /** The jobs are pending and took the tokens `next`, `next + 1`, ... in
      order for their ids. */
  predicate Started(jobs: seq<Job>, next: nat, token: nat -> string)
  {
    forall i :: 0 <= i < |jobs| ==> jobs[i].id == PlaceholderId(token(next + i)) && jobs[i].state == Pending
  }

  lemma MatchedConcat(t1: seq<Node>, p1: seq<Node>, j1: seq<Job>, t2: seq<Node>, p2: seq<Node>, j2: seq<Job>)
    requires Matched(t1, p1, j1) && Matched(t2, p2, j2)
    ensures Matched(t1 + t2, p1 + p2, j1 + j2)
  {
  }

  lemma StartedConcat(j1: seq<Job>, j2: seq<Job>, next: nat, token: nat -> string)
    requires Started(j1, next, token) && Started(j2, next + |j1|, token)
    ensures Started(j1 + j2, next, token)
  {
    forall i | |j1| <= i < |j1 + j2|
      ensures (j1 + j2)[i] == j2[i - |j1|] && next + i == (next + |j1|) + (i - |j1|)
    {
    }
  }

  /** `after` is what the rewrite may make of `before`: the same names,
      attributes and shape everywhere; other nodes keep their type and value;
      `amazon` elements become raw-HTML placeholders. */
  predicate Rewritten(before: Node, after: Node)
    decreases before
  {
    && after.name == before.name
    && after.attributes == before.attributes
    && (before.name != Tag ==> after.nodeType == before.nodeType && after.value == before.value)
    && (before.name == Tag ==> after.nodeType == RawHtml && PlaceholderOpen <= after.value)
    && RewrittenForest(before.children, after.children)
  }

  /** `Rewritten` sibling by sibling. */
  predicate RewrittenForest(before: seq<Node>, after: seq<Node>)
    decreases before
  {
    && |after| == |before|
    && (|before| > 0 ==> Rewritten(before[0], after[0]) && RewrittenForest(before[1..], after[1..]))
  }

  /** The plugin's pass over a tree, drawing placeholder tokens `next`,
      `next + 1`, ... in visiting order: one job per `amazon` element, with
      the structure of the tree kept. Which job belongs to which element is
      stated by `RewriteTreeJobs`. */
  function RewriteTree(n: Node, next: nat, token: nat -> string): (r: Visited)
    ensures |r.jobs| == |Tagged(n)|
    ensures Rewritten(n, r.node)
    decreases n
  {
    var self := VisitNode(n, token(next));
    var kids := RewriteForest(n.children, next + |self.jobs|, token);
    assert n.name == Tag ==> PlaceholderOpen <= self.node.value by {
      if n.name == Tag {
        assert self.node.value == PlaceholderOpen + (token(next) + "\"></div>");
      }
    }
    Visited(self.node.(children := kids.nodes), self.jobs + kids.jobs)
  }

  function RewriteForest(ns: seq<Node>, next: nat, token: nat -> string): (r: VisitedForest)
    ensures |r.nodes| == |ns|
    ensures |r.jobs| == |TaggedForest(ns)|
    ensures RewrittenForest(ns, r.nodes)
    decreases ns
  {
    if |ns| == 0 then VisitedForest([], [])
    else
      var head := RewriteTree(ns[0], next, token);
      var tail := RewriteForest(ns[1..], next + |head.jobs|, token);
      var out := [head.node] + tail.nodes;
      assert out[0] == head.node && out[1..] == tail.nodes;
      VisitedForest(out, head.jobs + tail.jobs)
  }

  /** One node's share of the pass: its own job, if any, comes before those
      of its children. */
  lemma TreeStepMatched(n: Node, kids: VisitedForest, tok: string)
    requires Matched(TaggedForest(n.children), TaggedForest(kids.nodes), kids.jobs)
    ensures var self := VisitNode(n, tok);
      Matched(Tagged(n), Tagged(self.node.(children := kids.nodes)), self.jobs + kids.jobs)
  {
    var self := VisitNode(n, tok);
    var out := self.node.(children := kids.nodes);
    var mine := if n.name == Tag then [n] else [];
    var placed := if n.name == Tag then [out] else [];
    assert Tagged(n) == mine + TaggedForest(n.children);
    assert Tagged(out) == placed + TaggedForest(kids.nodes);
    MatchedConcat(mine, placed, self.jobs, TaggedForest(n.children), TaggedForest(kids.nodes), kids.jobs);
  }

  lemma TreeStepStarted(n: Node, kids: seq<Job>, next: nat, token: nat -> string)
    requires Started(kids, next + |VisitNode(n, token(next)).jobs|, token)
    ensures Started(VisitNode(n, token(next)).jobs + kids, next, token)
  {
    StartedConcat(VisitNode(n, token(next)).jobs, kids, next, token);
  }

  lemma TreeStep(n: Node, kids: VisitedForest, next: nat, token: nat -> string)
    requires Matched(TaggedForest(n.children), TaggedForest(kids.nodes), kids.jobs)
    requires Started(kids.jobs, next + |VisitNode(n, token(next)).jobs|, token)
    ensures var self := VisitNode(n, token(next));
      && Matched(Tagged(n), Tagged(self.node.(children := kids.nodes)), self.jobs + kids.jobs)
      && Started(self.jobs + kids.jobs, next, token)
  {
    TreeStepMatched(n, kids, token(next));
    TreeStepStarted(n, kids.jobs, next, token);
  }

  /** The first sibling's jobs come before those of the rest. */
  lemma ForestStep(ns: seq<Node>, head: Visited, tail: VisitedForest, next: nat, token: nat -> string)
    requires |ns| > 0
    requires Matched(Tagged(ns[0]), Tagged(head.node), head.jobs) && Started(head.jobs, next, token)
    requires Matched(TaggedForest(ns[1..]), TaggedForest(tail.nodes), tail.jobs)
    requires Started(tail.jobs, next + |head.jobs|, token)
    ensures Matched(TaggedForest(ns), TaggedForest([head.node] + tail.nodes), head.jobs + tail.jobs)
    ensures Started(head.jobs + tail.jobs, next, token)
  {
    var out := [head.node] + tail.nodes;
    assert out[0] == head.node && out[1..] == tail.nodes;
    MatchedConcat(Tagged(ns[0]), Tagged(head.node), head.jobs, TaggedForest(ns[1..]), TaggedForest(tail.nodes), tail.jobs);
    StartedConcat(head.jobs, tail.jobs, next, token);
  }

  /** The `i`-th `amazon` element the pass meets starts the `i`-th job, which
      is pending, takes token `next + i` for its id and captures that
      element's attributes; the element becomes a placeholder carrying that
      id. */
  lemma {:induction false} RewriteTreeJobs(n: Node, next: nat, token: nat -> string)
    ensures var r := RewriteTree(n, next, token);
      Matched(Tagged(n), Tagged(r.node), r.jobs) && Started(r.jobs, next, token)
    decreases n
  {
    var k := |VisitNode(n, token(next)).jobs|;
    RewriteForestJobs(n.children, next + k, token);
    TreeStep(n, RewriteForest(n.children, next + k, token), next, token);
  }

  lemma {:induction false} RewriteForestJobs(ns: seq<Node>, next: nat, token: nat -> string)
    ensures var r := RewriteForest(ns, next, token);
      Matched(TaggedForest(ns), TaggedForest(r.nodes), r.jobs) && Started(r.jobs, next, token)
    decreases ns
  {
    if |ns| > 0 {
      var head := RewriteTree(ns[0], next, token);
      RewriteTreeJobs(ns[0], next, token);
      RewriteForestJobs(ns[1..], next + |head.jobs|, token);
      ForestStep(ns, head, RewriteForest(ns[1..], next + |head.jobs|, token), next, token);
    }
  }

  /** A tree without `amazon` elements comes through the pass unchanged and
      starts no job. */
  lemma {:induction false} UntaggedTreeUnchanged(n: Node, next: nat, token: nat -> string)
    requires Tagged(n) == []
    ensures RewriteTree(n, next, token) == Visited(n, [])
    decreases n
  {
    UntaggedForestUnchanged(n.children, next, token);
  }

  lemma {:induction false} UntaggedForestUnchanged(ns: seq<Node>, next: nat, token: nat -> string)
    requires TaggedForest(ns) == []
    ensures RewriteForest(ns, next, token) == VisitedForest(ns, [])
    decreases ns
  {
    if |ns| > 0 {
      assert Tagged(ns[0]) == [] && TaggedForest(ns[1..]) == [];
      UntaggedTreeUnchanged(ns[0], next, token);
      var head := RewriteTree(ns[0], next, token);
      assert head == Visited(ns[0], []);
      UntaggedForestUnchanged(ns[1..], next, token);
      var tail := RewriteForest(ns[1..], next, token);
      assert tail == VisitedForest(ns[1..], []);
      assert RewriteForest(ns, next, token) == VisitedForest([head.node] + tail.nodes, head.jobs + tail.jobs);
      assert [ns[0]] + ns[1..] == ns;
    }
  }

  /** With distinct tokens, the jobs of one pass have distinct ids. */
  lemma JobIdsDistinct(n: Node, next: nat, token: nat -> string)
    requires forall a: nat, b: nat :: a != b ==> token(a) != token(b)
    ensures var jobs := RewriteTree(n, next, token).jobs;
      forall i, j :: 0 <= i < j < |jobs| ==> jobs[i].id != jobs[j].id
  {
    var jobs := RewriteTree(n, next, token).jobs;
    RewriteTreeJobs(n, next, token);
    forall i, j | 0 <= i < j < |jobs|
      ensures jobs[i].id != jobs[j].id
    {
      var a, b := token(next + i), token(next + j);
      assert a != b;
      assert PlaceholderId(a)[7..] == a && PlaceholderId(b)[7..] == b;
    }
  }

  /** A rewritten tree has as many `amazon` elements as before. */
  lemma {:induction false} RewrittenKeepsCount(before: Node, after: Node)
    requires Rewritten(before, after)
    ensures |Tagged(after)| == |Tagged(before)|
    decreases before
  {
    RewrittenForestKeepsCount(before.children, after.children);
  }

  lemma {:induction false} RewrittenForestKeepsCount(before: seq<Node>, after: seq<Node>)
    requires RewrittenForest(before, after)
    ensures |TaggedForest(after)| == |TaggedForest(before)|
    decreases before
  {
    if |before| > 0 {
      RewrittenKeepsCount(before[0], after[0]);
      RewrittenForestKeepsCount(before[1..], after[1..]);
    }
  }

  /** The pass is not idempotent: the element name survives the rewrite, so a
      second pass over its output rewrites every `amazon` element again and
      starts as many new jobs. */
  lemma SecondPassRestartsJobs(n: Node, next: nat, next2: nat, token: nat -> string)
    ensures var once := RewriteTree(n, next, token);
      |RewriteTree(once.node, next2, token).jobs| == |once.jobs|
  {
    RewrittenKeepsCount(n, RewriteTree(n, next, token).node);
  }

  /** The outcome of one timer tick: the job afterwards and the markup
      injected into its placeholder, if any. */
  datatype Polled = Polled(job: Job, injected: Option<string>)

  /** One tick of the interval callback. A resolved job's interval has been
      cleared, so it does nothing. A pending job whose placeholder is present
      renders its card, injects it and resolves; if rendering throws, the
      assignment and `clearInterval` are never reached and it stays pending. */
  function Poll(job: Job, found: bool, p: Platform): (r: Polled)
    ensures r.job == job.(state := r.job.state)
    ensures job.state == Resolved ==> r == Polled(job, None)
    ensures r.injected.Some? <==> job.state == Pending && found && CreateAmazon(job.asin, job.title, job.url, p).Success?
    ensures r.injected.Some? ==> r.injected == CreateAmazon(job.asin, job.title, job.url, p).ToOption()
    ensures r.job.state == Resolved <==> job.state == Resolved || r.injected.Some?
  {
    if job.state == Resolved || !found then Polled(job, None)
    else
      var html := CreateAmazon(job.asin, job.title, job.url, p);
      assert job.state == Pending;
      if html.Success? then Polled(job.(state := Resolved), Some(html.value))
      else Polled(job, None)
  }

  /** The job after a run of ticks, and everything it injected. */
  datatype Ran = Ran(job: Job, injections: seq<string>)

  /** A run of ticks; `found[k]` says whether the placeholder is in the live
      document at tick `k`. A job injects at most once, and it is resolved
      exactly when it has injected. */
  function Run(job: Job, found: seq<bool>, p: Platform): (r: Ran)
    ensures |r.injections| <= 1
    ensures r.job == job.(state := r.job.state)
    ensures job.state == Resolved ==> r == Ran(job, [])
    ensures r.job.state == Resolved <==> job.state == Resolved || |r.injections| == 1
    decreases |found|
  {
    if |found| == 0 then Ran(job, [])
    else
      var step := Poll(job, found[0], p);
      var rest := Run(step.job, found[1..], p);
      var now := if step.injected.Some? then [step.injected.value] else [];
      Ran(rest.job, now + rest.injections)
  }

  /** A pending job injects its rendered card, once, exactly when its
      placeholder shows up at some tick and rendering does not throw. */
  lemma {:induction false} RunOutcome(job: Job, found: seq<bool>, p: Platform)
    requires job.state == Pending
    ensures var html := CreateAmazon(job.asin, job.title, job.url, p);
      Run(job, found, p).injections == (if true in found && html.Success? then [html.value] else [])
    decreases |found|
  {
    if |found| > 0 {
      var html := CreateAmazon(job.asin, job.title, job.url, p);
      var step := Poll(job, found[0], p);
      var rest := Run(step.job, found[1..], p);
      assert found == [found[0]] + found[1..];
      assert (true in found) == (found[0] || true in found[1..]);
      assert Run(job, found, p).injections
          == (if step.injected.Some? then [step.injected.value] else []) + rest.injections;
      if found[0] && html.Success? {
        assert step == Polled(job.(state := Resolved), Some(html.value));
        assert rest.injections == [];
      } else {
        assert step == Polled(job, None);
        RunOutcome(job, found[1..], p);
      }
    }
  }
}
