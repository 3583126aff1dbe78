/** Topic names under the default policy, and discovery runs over a set of flows. */
module Naming {

  // ---------------------------------------------------------------- strings

  predicate HasPrefix(s: string, p: string) {
    p <= s
  }

  predicate HasSuffix(s: string, p: string) {
    |p| <= |s| && s[|s| - |p|..] == p
  }

  predicate OccursAt(s: string, sub: string, i: int) {
    0 <= i <= |s| - |sub| && s[i..i + |sub|] == sub
  }

  /** strings.Index: the first occurrence of `sub`, or -1. */
  function Index(s: string, sub: string): (i: int)
    ensures i == -1 || OccursAt(s, sub, i)
    ensures forall k :: 0 <= k && (i == -1 || k < i) ==> !OccursAt(s, sub, k)
  {
    IndexFrom(s, sub, 0)
  }

  function IndexFrom(s: string, sub: string, from: nat): (i: int)
    ensures i == -1 || (from <= i && OccursAt(s, sub, i))
    ensures forall k :: from <= k && (i == -1 || k < i) ==> !OccursAt(s, sub, k)
    decreases |s| - from
  {
    if from > |s| - |sub| then -1
    else if s[from..from + |sub|] == sub then from
    else IndexFrom(s, sub, from + 1)
  }

  // ---------------------------------------------------------------- the default policy

  function Format(sep: string, alias: string, topic: string): string {
    alias + sep + topic
  }

  function TopicSource(sep: string, topic: string): string {
    var i := Index(topic, sep);
    if i < 0 then "" else topic[..i]
  }

  function UpstreamTopic(sep: string, topic: string): string {
    var source := TopicSource(sep, topic);
    if source == "" then "" else
      assert |source| == Index(topic, sep);
      topic[|source| + |sep|..]
  }

  predicate IsInternal(sep: string, topic: string) {
    || (HasPrefix(topic, "mm2") && HasSuffix(topic, sep + "internal"))
    || HasSuffix(topic, sep + "checkpoints" + sep + "internal")
  }

  function OffsetSyncsTopic(sep: string, alias: string): string {
    "mm2-offset-syncs" + sep + alias + sep + "internal"
  }

  function CheckpointsTopic(sep: string, alias: string): string {
    alias + sep + "checkpoints" + sep + "internal"
  }

  /** The topic filter, with its pattern lists as an arbitrary predicate. */
  predicate Filtered(user: string -> bool, topic: string) {
    !HasPrefix(topic, "__") && !HasPrefix(topic, ".") && user(topic)
  }

  predicate ShouldReplicate(sep: string, user: string -> bool, topic: string) {
    && !IsInternal(sep, topic)
    && topic != "heartbeats"
    && TopicSource(sep, topic) == ""
    && Filtered(user, topic)
  }

  /** A topic is internal if it begins with "mm2" and ends in "internal" after a separator, or ends in
      "checkpoints" and "internal" after one each. */
  lemma InternalExact(sep: string, topic: string)
    ensures IsInternal(sep, topic) <==>
      || ((exists x :: topic == "mm2" + x) && exists y :: topic == y + sep + "internal")
      || exists y :: topic == y + sep + "checkpoints" + sep + "internal"
  {
    EndsWith(topic, sep + "internal");
    EndsWith(topic, sep + "checkpoints" + sep + "internal");
    assert HasPrefix(topic, "mm2") ==> topic == "mm2" + topic[3..];
    assert forall y: string :: y + sep + "internal" == y + (sep + "internal");
    assert forall y: string ::
      y + sep + "checkpoints" + sep + "internal" == y + (sep + "checkpoints" + sep + "internal");
  }

  lemma EndsWith(s: string, p: string)
    ensures HasSuffix(s, p) <==> exists y :: s == y + p
  {
    if HasSuffix(s, p) {
      assert s == s[..|s| - |p|] + p;
    }
  }

  /** A topic with a source is that source, a separator and its upstream topic, cut at the first
      separator; it has none exactly when there is no separator in it or one at its very beginning. */
  lemma SourceExact(sep: string, topic: string)
    requires sep != ""
    ensures TopicSource(sep, topic) != "" ==>
      && topic == TopicSource(sep, topic) + sep + UpstreamTopic(sep, topic)
      && forall k :: k < |TopicSource(sep, topic)| ==> !OccursAt(topic, sep, k)
    ensures TopicSource(sep, topic) == "" <==> sep <= topic || forall k :: !OccursAt(topic, sep, k)
  {
    var i := Index(topic, sep);
    assert OccursAt(topic, sep, 0) <==> sep <= topic by {
      assert |sep| <= |topic| ==> topic[0..|sep|] == topic[..|sep|];
    }
    if i > 0 {
      assert topic == topic[..i] + topic[i..i + |sep|] + topic[i + |sep|..];
    }
    assert forall k :: k < 0 ==> !OccursAt(topic, sep, k);
  }

  // ---------------------------------------------------------------- inverses

  /** Where the separator first occurs in a remote name depends on alias and separator alone. */
  lemma FirstSeparator(sep: string, alias: string, topic: string)
    requires sep != ""
    ensures Index(Format(sep, alias, topic), sep) == Index(alias + sep, sep)
    ensures 0 <= Index(alias + sep, sep) <= |alias|
  {
    var name, head := Format(sep, alias, topic), alias + sep;
    assert OccursAt(head, sep, |alias|);
    forall k | 0 <= k <= |alias|
      ensures OccursAt(name, sep, k) <==> OccursAt(head, sep, k)
    {
      assert name[..|head|] == head;
      assert name[k..k + |sep|] == head[k..k + |sep|];
    }
    var i := Index(head, sep);
    assert OccursAt(name, sep, i);
  }

  /** TopicSource undoes FormatRemoteTopic, for every topic, if and only if the separator does not
      already begin inside the alias. UpstreamTopic does if and only if moreover the alias is not empty;
      beyond that only the empty topic comes back, behind a name that begins with the separator. */
  lemma InverseIff(sep: string, alias: string, topic: string)
    requires sep != ""
    ensures TopicSource(sep, Format(sep, alias, topic)) == alias <==> Index(alias + sep, sep) == |alias|
    ensures UpstreamTopic(sep, Format(sep, alias, topic)) == topic <==>
      || (Index(alias + sep, sep) == |alias| && alias != "")
      || (Index(alias + sep, sep) == 0 && topic == "")
  {
    FirstSeparator(sep, alias, topic);
    var name := Format(sep, alias, topic);
    assert name[..|alias|] == alias;
    assert name[|alias| + |sep|..] == topic;
  }

  /** With a one-character separator that means: the alias does not contain it. */
  lemma SingleCharacterInverse(sep: char, alias: string)
    ensures Index(alias + [sep], [sep]) == |alias| <==> sep !in alias
  {
    var head := alias + [sep];
    if k :| 0 <= k < |alias| && alias[k] == sep {
      assert head[k..k + 1] == [sep];
      assert OccursAt(head, [sep], k);
    }
    assert head[|alias|..|alias| + 1] == [sep];
    assert OccursAt(head, [sep], |alias|);
    var i := Index(head, [sep]);
    assert head[i..i + 1][0] == head[i];
  }

  /** A replicated topic is taken for a remote one, and so never replicated again, if and only if its
      name does not begin with the separator. */
  lemma RemoteDetectedIff(sep: string, alias: string, topic: string)
    requires sep != ""
    ensures TopicSource(sep, Format(sep, alias, topic)) != "" <==> !HasPrefix(alias + sep, sep)
  {
    FirstSeparator(sep, alias, topic);
    var head := alias + sep;
    assert OccursAt(head, sep, 0) <==> HasPrefix(head, sep) by {
      assert head[0..|sep|] == head[..|sep|];
    }
  }

  /** The topics gomm2 keeps for itself are internal, so no flow replicates them. */
  lemma OwnTopicsInternal(sep: string, alias: string, user: string -> bool)
    ensures var t := "mm2-offset-syncs" + sep + alias + sep + "internal";
            t == OffsetSyncsTopic(sep, alias) && !ShouldReplicate(sep, user, t)
    ensures var t := alias + sep + "checkpoints" + sep + "internal";
            t == CheckpointsTopic(sep, alias) && !ShouldReplicate(sep, user, t)
  {
    var t, u := OffsetSyncsTopic(sep, alias), CheckpointsTopic(sep, alias);
    assert "mm2" == "mm2-offset-syncs"[..3] == t[..3];
    assert t == ("mm2-offset-syncs" + sep + alias) + (sep + "internal");
    assert u == alias + (sep + "checkpoints" + sep + "internal");
  }

  // ---------------------------------------------------------------- discovery

  datatype Flow = Flow(source: string, target: string, user: string -> bool)

  type Topics = map<string, set<string>>

  function TopicsOf(topics: Topics, cluster: string): set<string> {
    if cluster in topics then topics[cluster] else {}
  }

  /** The remote names one flow wants on its target. */
  function Wanted(sep: string, f: Flow, topics: set<string>): set<string> {
    set t | t in topics && ShouldReplicate(sep, f.user, t) :: Format(sep, f.source, t)
  }

  /** One refresh: of the missing remote topics those whose creation succeeds are added. */
  function Refresh(sep: string, f: Flow, topics: Topics, creates: string -> bool): Topics {
    var missing := Wanted(sep, f, TopicsOf(topics, f.source)) - TopicsOf(topics, f.target);
    topics[f.target := TopicsOf(topics, f.target) + set t | t in missing && creates(t)]
  }

  /** One refresh, name by name: the target's topics stay, and it gains exactly the missing names source
      + separator + t whose creation succeeds, for the source topics t that pass the filter, begin with
      neither "__" nor ".", and are neither heartbeats nor internal nor remote. Other clusters stay. */
  lemma RefreshExact(sep: string, f: Flow, topics: Topics, creates: string -> bool, cluster: string, name: string)
    ensures var after := TopicsOf(Refresh(sep, f, topics, creates), cluster);
            if cluster != f.target then after == TopicsOf(topics, cluster)
            else name in after <==>
              || name in TopicsOf(topics, cluster)
              || (creates(name) && exists t ::
                   && t in TopicsOf(topics, f.source) && name == f.source + sep + t
                   && f.user(t) && !("__" <= t) && !("." <= t) && t != "heartbeats"
                   && !IsInternal(sep, t) && TopicSource(sep, t) == "")
  {
    hide IsInternal, TopicSource;
  }

  /** The refresh loop over the listed source topics. */
  method RefreshLoop(sep: string, f: Flow, source: seq<string>, target: set<string>, creates: string -> bool)
    returns (replicable: seq<string>, after: set<string>)
    ensures forall t :: t in replicable <==>
      && t in source && f.user(t) && !("__" <= t) && !("." <= t) && t != "heartbeats"
      && !IsInternal(sep, t) && TopicSource(sep, t) == ""
    ensures forall name :: name in after <==>
      name in target || (creates(name) && exists t :: t in replicable && name == f.source + sep + t)
    ensures after == target +
      (set t | t in Wanted(sep, f, set x | x in source) - target && creates(t))
  {
    replicable, after := [], target;
    var i := 0;
    while i < |source|
      invariant 0 <= i <= |source|
      invariant forall t :: t in replicable <==> t in source[..i] && ShouldReplicate(sep, f.user, t)
      invariant forall t :: t in after <==>
        || t in target
        || (creates(t) && exists k ::
             0 <= k < i && ShouldReplicate(sep, f.user, source[k]) && t == Format(sep, f.source, source[k]))
    {
      var topic := source[i];
      if ShouldReplicate(sep, f.user, topic) {
        replicable := replicable + [topic];
        var remote := Format(sep, f.source, topic);
        if remote !in target {
          if creates(remote) {
            after := after + {remote};
          }
        }
      }
      i := i + 1;
    }
  }

  // ---------------------------------------------------------------- the fixpoint

  /** One discovery run: which flow refreshes and which creations succeed. */
  datatype Step = Step(flow: nat, creates: string -> bool)

  ghost predicate Runs(flows: seq<Flow>, run: seq<Step>) {
    forall i :: 0 <= i < |run| ==> run[i].flow < |flows|
  }

  ghost function Discover(sep: string, flows: seq<Flow>, topics: Topics, run: seq<Step>): Topics
    requires Runs(flows, run)
  {
    if run == [] then topics
    else
      var last := run[|run| - 1];
      Refresh(sep, flows[last.flow], Discover(sep, flows, topics, run[..|run| - 1]), last.creates)
  }

  /** No alias begins with the separator or is empty. */
  ghost predicate ProperAliases(sep: string, flows: seq<Flow>) {
    sep != "" && forall i :: 0 <= i < |flows| ==> !HasPrefix(flows[i].source + sep, sep)
  }

  /** `name` is the remote name on `cluster` of a topic that was there before any discovery. */
  ghost predicate IsRemote(sep: string, flows: seq<Flow>, original: Topics, cluster: string, name: string) {
    exists i :: 0 <= i < |flows| && flows[i].target == cluster
                && name in Wanted(sep, flows[i], TopicsOf(original, flows[i].source))
  }

  ghost predicate Between(sep: string, flows: seq<Flow>, original: Topics, topics: Topics) {
    forall cluster, name ::
      && (name in TopicsOf(original, cluster) ==> name in TopicsOf(topics, cluster))
      && (name in TopicsOf(topics, cluster) ==>
            name in TopicsOf(original, cluster) || IsRemote(sep, flows, original, cluster, name))
  }

  lemma WantedDetected(sep: string, f: Flow, topics: set<string>, name: string)
    requires sep != "" && !HasPrefix(f.source + sep, sep) && name in Wanted(sep, f, topics)
    ensures TopicSource(sep, name) != ""
  {
    var t :| t in topics && ShouldReplicate(sep, f.user, t) && name == Format(sep, f.source, t);
    RemoteDetectedIff(sep, f.source, t);
  }

  /** What a flow wants never changes: remote names are recognised and internal ones skipped. */
  lemma WantedStays(sep: string, flows: seq<Flow>, original: Topics, topics: Topics, f: nat)
    requires ProperAliases(sep, flows) && Between(sep, flows, original, topics) && f < |flows|
    ensures Wanted(sep, flows[f], TopicsOf(topics, flows[f].source))
         == Wanted(sep, flows[f], TopicsOf(original, flows[f].source))
  {
    var source := flows[f].source;
    forall t | t in TopicsOf(topics, source) && ShouldReplicate(sep, flows[f].user, t)
      ensures t in TopicsOf(original, source)
    {
      if t !in TopicsOf(original, source) {
        assert IsRemote(sep, flows, original, source, t);
        var i :| 0 <= i < |flows| && t in Wanted(sep, flows[i], TopicsOf(original, flows[i].source));
        WantedDetected(sep, flows[i], TopicsOf(original, flows[i].source), t);
      }
    }
  }

  lemma {:induction false} DiscoverBetween(sep: string, flows: seq<Flow>, original: Topics, run: seq<Step>)
    requires ProperAliases(sep, flows) && Runs(flows, run)
    ensures Between(sep, flows, original, Discover(sep, flows, original, run))
  {
    if run != [] {
      var before := Discover(sep, flows, original, run[..|run| - 1]);
      var f := run[|run| - 1].flow;
      DiscoverBetween(sep, flows, original, run[..|run| - 1]);
      WantedStays(sep, flows, original, before, f);
      var after := Discover(sep, flows, original, run);
      forall cluster, name | name in TopicsOf(after, cluster) && name !in TopicsOf(before, cluster)
        ensures IsRemote(sep, flows, original, cluster, name)
      {
        assert flows[f].target == cluster;
      }
    }
  }

  /** Whatever runs have happened, in any order and with any failed creations, a discovery run adds only
      names source + separator + t, for a topic t that was on the source from the start, is not internal,
      and either is free of the separator or begins with it. */
  lemma AddsOnlyFirstHand(sep: string, flows: seq<Flow>, original: Topics, run: seq<Step>,
     cluster: string, name: string)
    returns (f: nat, t: string)
    requires ProperAliases(sep, flows) && Runs(flows, run)
    requires name in TopicsOf(Discover(sep, flows, original, run), cluster) && name !in TopicsOf(original, cluster)
    ensures f < |flows| && flows[f].target == cluster && t in TopicsOf(original, flows[f].source)
    ensures name == flows[f].source + sep + t
    ensures flows[f].user(t) && !("__" <= t) && !("." <= t) && t != "heartbeats" && !IsInternal(sep, t)
    ensures HasPrefix(t, sep) || forall k :: !OccursAt(t, sep, k)
  {
    DiscoverBetween(sep, flows, original, run);
    f :| f < |flows| && flows[f].target == cluster
      && name in Wanted(sep, flows[f], TopicsOf(original, flows[f].source));
    t :| t in TopicsOf(original, flows[f].source) && ShouldReplicate(sep, flows[f].user, t)
      && name == Format(sep, flows[f].source, t);
    var i := Index(t, sep);
    if i >= 0 {
      assert t[..i] == "";
      assert t[0..|sep|] == sep;
    } else {
      forall k
        ensures !OccursAt(t, sep, k)
      {
        assert k < 0 ==> !OccursAt(t, sep, k);
      }
    }
  }

  /** Flow f has had a run in which every creation it asked for succeeded. */
  ghost predicate Succeeded(run: seq<Step>, f: nat) {
    exists i :: 0 <= i < |run| && run[i].flow == f && forall name :: run[i].creates(name)
  }

  lemma {:induction false} SucceededAdds(sep: string, flows: seq<Flow>, original: Topics, run: seq<Step>, f: nat)
    requires ProperAliases(sep, flows) && Runs(flows, run) && f < |flows| && Succeeded(run, f)
    ensures Wanted(sep, flows[f], TopicsOf(original, flows[f].source))
         <= TopicsOf(Discover(sep, flows, original, run), flows[f].target)
  {
    var n := |run| - 1;
    var i :| 0 <= i < |run| && run[i].flow == f && forall name :: run[i].creates(name);
    DiscoverBetween(sep, flows, original, run[..n]);
    if i < n {
      assert run[..n][i] == run[i];
      SucceededAdds(sep, flows, original, run[..n], f);
    } else {
      WantedStays(sep, flows, original, Discover(sep, flows, original, run[..n]), f);
    }
  }

  /** Fixpoint: once every flow has had a successful run, each cluster has exactly its original topics
      and the remote names of original topics, and no further run of any flow changes any cluster. */
  lemma Fixpoint(sep: string, flows: seq<Flow>, original: Topics, run: seq<Step>, next: Step,
     cluster: string, name: string)
    requires ProperAliases(sep, flows) && Runs(flows, run) && next.flow < |flows|
    requires forall f :: 0 <= f < |flows| ==> Succeeded(run, f)
    ensures var topics := Discover(sep, flows, original, run);
            && (name in TopicsOf(topics, cluster) <==>
                  name in TopicsOf(original, cluster) || IsRemote(sep, flows, original, cluster, name))
            && TopicsOf(Refresh(sep, flows[next.flow], topics, next.creates), cluster) == TopicsOf(topics, cluster)
  {
    var topics := Discover(sep, flows, original, run);
    DiscoverBetween(sep, flows, original, run);
    WantedStays(sep, flows, original, topics, next.flow);
    SucceededAdds(sep, flows, original, run, next.flow);
    if IsRemote(sep, flows, original, cluster, name) {
      var i :| 0 <= i < |flows| && flows[i].target == cluster
        && name in Wanted(sep, flows[i], TopicsOf(original, flows[i].source));
      SucceededAdds(sep, flows, original, run, i);
    }
  }
}
