/**
 * The in-place behaviour of model.py: Message objects whose role and content the passes
 * rewrite, and the loops of fix_and_merge_messages, Llama2's token pass, format_messages,
 * build_prompt and bedrock_format. Whenever the list does not hold the same Message object
 * twice, each method is proved to compute the value-level definition on the messages'
 * values before the call (MessageNormalizer.Normalize for the base pass, ProviderFormat for
 * the variants and build_prompt); the passes that return a sublist also return distinct
 * objects again and say which value every object they drop ends with.
 */
module Model {
  import opened Messages
  import opened MessageNormalizer
  import opened Settings
  import PF = ProviderFormat

  /** pydantic_prompter.common.Message: a mutable role and content. */
  class Message {
    var role: Role
    var content: string

    constructor (role: Role, content: string)
      ensures this.role == role && this.content == content
    {
      this.role := role;
      this.content := content;
    }

    function Value(): Msg
      reads this
    {
      Msg(role, content)
    }
  }

  /** The current values of a list of messages. */
  function Snapshot(ms: seq<Message>): seq<Msg>
    reads ms
  {
    seq(|ms|, i reads ms requires 0 <= i < |ms| => ms[i].Value())
  }

  /** No Message object occurs twice in the list. */
  ghost predicate Distinct(ms: seq<Message>)
    decreases |ms|
  {
    ms == [] || (ms[|ms| - 1] !in ms[..|ms| - 1] && Distinct(ms[..|ms| - 1]))
  }

  lemma {:induction false} DistinctPairs(ms: seq<Message>)
    ensures Distinct(ms) <==> forall i, j :: 0 <= i < j < |ms| ==> ms[i] != ms[j]
    decreases |ms|
  {
    if ms != [] {
      var front := ms[..|ms| - 1];
      DistinctPairs(front);
      if Distinct(ms) {
        forall i, j | 0 <= i < j < |ms| ensures ms[i] != ms[j] {
          if j < |ms| - 1 {
            assert ms[i] == front[i] && ms[j] == front[j];
          } else {
            assert ms[i] == front[i];
          }
        }
      }
      if forall i, j :: 0 <= i < j < |ms| ==> ms[i] != ms[j] {
        forall i, j | 0 <= i < j < |front| ensures front[i] != front[j] {
          assert front[i] == ms[i] && front[j] == ms[j];
        }
        forall k | 0 <= k < |front| ensures front[k] != ms[|ms| - 1] {
          assert front[k] == ms[k];
        }
      }
    }
  }

  /**
   * fix_and_merge_messages part way through, on values: the values of all inputs, and the
   * positions of the inputs accepted so far.
   */
  datatype Progress = Progress(vals: seq<Msg>, idx: seq<nat>)

  /** The values at the given positions, in order. */
  ghost function Picked(vals: seq<Msg>, idx: seq<nat>): seq<Msg>
    requires forall k :: 0 <= k < |idx| ==> idx[k] < |vals|
  {
    seq(|idx|, k requires 0 <= k < |idx| => vals[idx[k]])
  }

  /** Positions listed in increasing order, all below bound. */
  ghost predicate Ascending(idx: seq<nat>, bound: nat)
  {
    (forall k :: 0 <= k < |idx| ==> idx[k] < bound) && Increasing(idx)
  }

  /** Each position is above the one before it. */
  ghost predicate Increasing(idx: seq<nat>)
    decreases |idx|
  {
    |idx| <= 1 || (idx[|idx| - 2] < idx[|idx| - 1] && Increasing(idx[..|idx| - 1]))
  }

  lemma {:induction false} IncreasingPairs(idx: seq<nat>)
    requires Increasing(idx)
    ensures forall k, l :: 0 <= k < l < |idx| ==> idx[k] < idx[l]
    decreases |idx|
  {
    if |idx| > 1 {
      var front := idx[..|idx| - 1];
      IncreasingPairs(front);
      forall k, l | 0 <= k < l < |idx| ensures idx[k] < idx[l] {
        if l < |idx| - 1 {
          assert idx[k] == front[k] && idx[l] == front[l];
        } else if k < |idx| - 2 {
          assert idx[k] == front[k] && idx[|idx| - 2] == front[|idx| - 2];
        }
      }
    }
  }

  /** The last accepted message takes the demoted input i when their roles agree. */
  ghost predicate Absorbs(p: Progress, i: nat, systemRoleSupported: bool)
    requires i < |p.vals| && Ascending(p.idx, i)
  {
    p.idx != [] && p.vals[p.idx[|p.idx| - 1]].role == DemoteRole(p.vals[i].role, systemRoleSupported)
  }

  /**
   * One iteration of fix_and_merge_messages on input i: it takes its demoted role and is
   * either appended to the last accepted message or accepted itself.
   */
  ghost function Step(p: Progress, i: nat, systemRoleSupported: bool): (q: Progress)
    requires i < |p.vals| && Ascending(p.idx, i)
    ensures |q.vals| == |p.vals| && Ascending(q.idx, i + 1)
  {
    var d := Demote(p.vals[i], systemRoleSupported);
    if Absorbs(p, i, systemRoleSupported) then
      var l := p.idx[|p.idx| - 1];
      Progress(p.vals[i := d][l := Msg(p.vals[l].role, p.vals[l].content + Separator + d.content)], p.idx)
    else
      assert (p.idx + [i])[..|p.idx|] == p.idx;
      Progress(p.vals[i := d], p.idx + [i])
  }

  /** The state after the first i iterations over inputs whose values were orig. */
  ghost function PassAt(orig: seq<Msg>, i: nat, systemRoleSupported: bool): (p: Progress)
    requires i <= |orig|
    ensures |p.vals| == |orig| && Ascending(p.idx, i)
  {
    if i == 0 then Progress(orig, [])
    else Step(PassAt(orig, i - 1, systemRoleSupported), i - 1, systemRoleSupported)
  }

  /** Step changes only input i and, when it absorbs, the last accepted position. */
  lemma StepFrame(p: Progress, i: nat, systemRoleSupported: bool)
    requires i < |p.vals| && Ascending(p.idx, i)
    ensures var q := Step(p, i, systemRoleSupported);
      && q.vals[i] == Demote(p.vals[i], systemRoleSupported)
      && (forall j :: i < j < |p.vals| ==> q.vals[j] == p.vals[j])
      && (forall j :: 0 <= j < |p.vals| && j != i ==> q.vals[j].role == p.vals[j].role)
      && (forall j :: 0 <= j < i && j !in q.idx ==> j !in p.idx && q.vals[j] == p.vals[j])
  {
  }

  /** On the accepted values, Step is MergeInto. */
  lemma StepPicked(p: Progress, i: nat, systemRoleSupported: bool)
    requires i < |p.vals| && Ascending(p.idx, i)
    ensures var q := Step(p, i, systemRoleSupported);
      Picked(q.vals, q.idx) == MergeInto(Picked(p.vals, p.idx), Demote(p.vals[i], systemRoleSupported))
  {
    if Absorbs(p, i, systemRoleSupported) {
      AbsorbPicked(p, i, systemRoleSupported);
    } else {
      AcceptPicked(p, i, systemRoleSupported);
    }
  }

  lemma AbsorbPicked(p: Progress, i: nat, systemRoleSupported: bool)
    requires i < |p.vals| && Ascending(p.idx, i) && Absorbs(p, i, systemRoleSupported)
    ensures var q := Step(p, i, systemRoleSupported);
      Picked(q.vals, q.idx) == MergeInto(Picked(p.vals, p.idx), Demote(p.vals[i], systemRoleSupported))
  {
    var d := Demote(p.vals[i], systemRoleSupported);
    var acc := Picked(p.vals, p.idx);
    var q := Step(p, i, systemRoleSupported);
    var l := p.idx[|p.idx| - 1];
    var merged := Msg(p.vals[l].role, p.vals[l].content + Separator + d.content);
    assert q == Progress(p.vals[i := d][l := merged], p.idx);
    var r := Picked(q.vals, q.idx);
    var e := acc[..|acc| - 1] + [merged];
    assert MergeInto(acc, d) == e;
    IncreasingPairs(p.idx);
    forall k | 0 <= k < |r| ensures r[k] == e[k] {
      if k < |r| - 1 {
        assert p.idx[k] < l;
      }
    }
  }

  lemma AcceptPicked(p: Progress, i: nat, systemRoleSupported: bool)
    requires i < |p.vals| && Ascending(p.idx, i) && !Absorbs(p, i, systemRoleSupported)
    ensures var q := Step(p, i, systemRoleSupported);
      Picked(q.vals, q.idx) == MergeInto(Picked(p.vals, p.idx), Demote(p.vals[i], systemRoleSupported))
  {
    var d := Demote(p.vals[i], systemRoleSupported);
    var acc := Picked(p.vals, p.idx);
    var q := Step(p, i, systemRoleSupported);
    assert q == Progress(p.vals[i := d], p.idx + [i]);
    var r := Picked(q.vals, q.idx);
    assert MergeInto(acc, d) == acc + [d];
    forall k | 0 <= k < |r| ensures r[k] == (acc + [d])[k] {
    }
  }

  /**
   * The values the first i iterations leave outside the accepted list: later values are
   * untouched, earlier ones carry their demoted role and, unless accepted, their own content.
   */
  ghost predicate Untouched(p: Progress, orig: seq<Msg>, i: nat, systemRoleSupported: bool)
    requires i <= |p.vals| == |orig|
  {
    LaterUntouched(p, orig, i) && EarlierDemoted(p, orig, i, systemRoleSupported) && EarlierKept(p, orig, i)
  }

  ghost predicate LaterUntouched(p: Progress, orig: seq<Msg>, i: nat)
    requires |p.vals| == |orig|
  {
    forall j :: i <= j < |orig| ==> p.vals[j] == orig[j]
  }

  ghost predicate EarlierDemoted(p: Progress, orig: seq<Msg>, i: nat, systemRoleSupported: bool)
    requires i <= |p.vals| == |orig|
  {
    forall j :: 0 <= j < i ==> p.vals[j].role == DemoteRole(orig[j].role, systemRoleSupported)
  }

  ghost predicate EarlierKept(p: Progress, orig: seq<Msg>, i: nat)
    requires i <= |p.vals| == |orig|
  {
    forall j :: 0 <= j < i && j !in p.idx ==> p.vals[j].content == orig[j].content
  }

  lemma StepPickedReaches(p: Progress, orig: seq<Msg>, i: nat, systemRoleSupported: bool)
    requires i < |p.vals| == |orig| && Ascending(p.idx, i) && p.vals[i] == orig[i]
    requires Picked(p.vals, p.idx) == PassPrefix(orig, i, systemRoleSupported)
    ensures var q := Step(p, i, systemRoleSupported);
      Picked(q.vals, q.idx) == PassPrefix(orig, i + 1, systemRoleSupported)
  {
    var d := Demote(orig[i], systemRoleSupported);
    var before := PassPrefix(orig, i, systemRoleSupported);
    assert PassPrefix(orig, i + 1, systemRoleSupported) == MergeInto(before, d);
    StepPicked(p, i, systemRoleSupported);
  }

  lemma StepFrameReaches(p: Progress, orig: seq<Msg>, i: nat, systemRoleSupported: bool)
    requires i < |p.vals| == |orig| && Ascending(p.idx, i)
    requires Untouched(p, orig, i, systemRoleSupported)
    ensures Untouched(Step(p, i, systemRoleSupported), orig, i + 1, systemRoleSupported)
  {
    StepFrame(p, i, systemRoleSupported);
  }

  /** After i iterations the values outside the accepted list are the ones Untouched describes. */
  lemma {:induction false} PassAtUntouched(orig: seq<Msg>, i: nat, systemRoleSupported: bool)
    requires i <= |orig|
    ensures Untouched(PassAt(orig, i, systemRoleSupported), orig, i, systemRoleSupported)
  {
    if i > 0 {
      var k := i - 1;
      var p := PassAt(orig, k, systemRoleSupported);
      PassAtUntouched(orig, k, systemRoleSupported);
      StepFrameReaches(p, orig, k, systemRoleSupported);
      assert PassAt(orig, i, systemRoleSupported) == Step(p, k, systemRoleSupported);
    }
  }

  /** After i iterations the accepted values are the pass over the first i inputs. */
  lemma {:induction false} PassAtPicked(orig: seq<Msg>, i: nat, systemRoleSupported: bool)
    requires i <= |orig|
    ensures var p := PassAt(orig, i, systemRoleSupported);
      Picked(p.vals, p.idx) == PassPrefix(orig, i, systemRoleSupported)
  {
    if i > 0 {
      var k := i - 1;
      var p := PassAt(orig, k, systemRoleSupported);
      PassAtPicked(orig, k, systemRoleSupported);
      PassAtUntouched(orig, k, systemRoleSupported);
      assert p.vals[k] == orig[k];
      StepPickedReaches(p, orig, k, systemRoleSupported);
      assert PassAt(orig, i, systemRoleSupported) == Step(p, k, systemRoleSupported);
    }
  }

  /** After i > 0 iterations the last accepted value has the demoted role of input i - 1. */
  lemma LastAcceptedRole(orig: seq<Msg>, i: nat, systemRoleSupported: bool)
    requires 0 < i <= |orig|
    ensures var p := PassAt(orig, i, systemRoleSupported);
      p.idx != [] && p.vals[p.idx[|p.idx| - 1]].role == DemoteRole(orig[i - 1].role, systemRoleSupported)
  {
    var p := PassAt(orig, i, systemRoleSupported);
    PassAtPicked(orig, i, systemRoleSupported);
    PassPrefixIsNormalize(orig, i, systemRoleSupported);
    var d := DemoteAll(orig[..i], systemRoleSupported);
    MergeAlternates(d);
    assert d[|d| - 1] == Demote(orig[i - 1], systemRoleSupported);
    var r := Picked(p.vals, p.idx);
    assert r == Merge(d);
    assert r[|r| - 1] == p.vals[p.idx[|p.idx| - 1]];
  }

  /** The positions the first i iterations accept are exactly the run starts among them. */
  lemma {:induction false} PassAtStarts(orig: seq<Msg>, i: nat, systemRoleSupported: bool)
    requires i <= |orig|
    ensures PassAt(orig, i, systemRoleSupported).idx == RunStarts(orig, i, systemRoleSupported)
  {
    if i > 0 {
      var k := i - 1;
      PassAtStarts(orig, k, systemRoleSupported);
      StepStarts(orig, k, i, systemRoleSupported);
    }
  }

  /** Step accepts input i unless it absorbs it. */
  lemma StepIdx(p: Progress, i: nat, systemRoleSupported: bool)
    requires i < |p.vals| && Ascending(p.idx, i)
    ensures Step(p, i, systemRoleSupported).idx == if Absorbs(p, i, systemRoleSupported) then p.idx else p.idx + [i]
  {
  }

  /** The first k iterations leave input k as it was. */
  lemma PassAtNext(orig: seq<Msg>, k: nat, systemRoleSupported: bool)
    requires k < |orig|
    ensures PassAt(orig, k, systemRoleSupported).vals[k] == orig[k]
  {
    PassAtUntouched(orig, k, systemRoleSupported);
  }

  /** Iteration k, the one that leads to i, accepts its input exactly when a run opens there. */
  lemma StepStarts(orig: seq<Msg>, k: nat, i: nat, systemRoleSupported: bool)
    requires i == k + 1 <= |orig|
    requires PassAt(orig, k, systemRoleSupported).idx == RunStarts(orig, k, systemRoleSupported)
    ensures PassAt(orig, i, systemRoleSupported).idx == RunStarts(orig, i, systemRoleSupported)
  {
    var p := PassAt(orig, k, systemRoleSupported);
    PassAtNext(orig, k, systemRoleSupported);
    if k > 0 {
      LastAcceptedRole(orig, k, systemRoleSupported);
    }
    assert Absorbs(p, k, systemRoleSupported) <==> !StartsRun(orig, k, systemRoleSupported);
    StepIdx(p, k, systemRoleSupported);
    assert PassAt(orig, i, systemRoleSupported).idx == Step(p, k, systemRoleSupported).idx;
    assert RunStarts(orig, i, systemRoleSupported) ==
      RunStarts(orig, k, systemRoleSupported) + (if StartsRun(orig, k, systemRoleSupported) then [k] else []);
  }

  /** The objects of msgs at positions idx, in that order. */
  ghost function Select(msgs: seq<Message>, idx: seq<nat>): seq<Message>
    requires forall k :: 0 <= k < |idx| ==> idx[k] < |msgs|
  {
    seq(|idx|, k requires 0 <= k < |idx| => msgs[idx[k]])
  }

  /** On distinct objects, the run starts selected are exactly the objects that open a run. */
  lemma KeptAtRunStarts(msgs: seq<Message>, fixed: seq<Message>, orig: seq<Msg>, systemRoleSupported: bool)
    requires Distinct(msgs) && |orig| == |msgs|
    requires fixed == Select(msgs, RunStarts(orig, |msgs|, systemRoleSupported))
    ensures forall i :: 0 <= i < |msgs| ==> (msgs[i] in fixed <==> i in RunStarts(orig, |msgs|, systemRoleSupported))
  {
    var idx := RunStarts(orig, |msgs|, systemRoleSupported);
    DistinctPairs(msgs);
    forall i | 0 <= i < |msgs| ensures msgs[i] in fixed <==> i in idx {
      if msgs[i] in fixed {
        var k :| 0 <= k < |fixed| && fixed[k] == msgs[i];
        assert msgs[idx[k]] == msgs[i];
        assert idx[k] == i;
      }
      if i in idx {
        var k :| 0 <= k < |idx| && idx[k] == i;
        assert fixed[k] == msgs[i];
      }
    }
  }

  /** The accepted messages are the inputs at positions idx. */
  ghost predicate At(fixed: seq<Message>, msgs: seq<Message>, idx: seq<nat>)
  {
    |fixed| == |idx| && forall k :: 0 <= k < |idx| ==> idx[k] < |msgs| && fixed[k] == msgs[idx[k]]
  }

  /** The objects of msgs hold the values vals, position by position. */
  ghost predicate Mirrors(msgs: seq<Message>, vals: seq<Msg>)
    reads msgs
  {
    |msgs| == |vals| && forall j :: 0 <= j < |msgs| ==> msgs[j].Value() == vals[j]
  }

  lemma MirrorsSnapshot(msgs: seq<Message>, vals: seq<Msg>)
    requires Mirrors(msgs, vals)
    ensures Snapshot(msgs) == vals
  {
  }

  /** A write to the object at position j of a list of distinct objects changes only that value. */
  lemma MirrorsWrite(msgs: seq<Message>, j: nat, before: seq<Msg>, v: Msg)
    requires j < |msgs| == |before| && Distinct(msgs) && msgs[j].Value() == v
    requires forall k :: 0 <= k < |msgs| && msgs[k] != msgs[j] ==> msgs[k].Value() == before[k]
    ensures Mirrors(msgs, before[j := v])
  {
    DistinctPairs(msgs);
    forall k | 0 <= k < |msgs| && k != j ensures msgs[k].Value() == before[k] {
      assert msgs[k] != msgs[j];
    }
  }

  /** On a list of distinct objects, the accepted messages and all values are those of p. */
  ghost predicate Linked(msgs: seq<Message>, fixed: seq<Message>, p: Progress)
    reads msgs
  {
    Distinct(msgs) ==> At(fixed, msgs, p.idx) && Mirrors(msgs, p.vals)
  }

  /** Step when input i joins the last accepted message. */
  lemma StepAbsorbs(p: Progress, i: nat, systemRoleSupported: bool)
    requires i < |p.vals| && Ascending(p.idx, i) && Absorbs(p, i, systemRoleSupported)
    ensures var d := Demote(p.vals[i], systemRoleSupported);
      var l := p.idx[|p.idx| - 1];
      Step(p, i, systemRoleSupported)
        == Progress(p.vals[i := d][l := Msg(p.vals[l].role, p.vals[l].content + Separator + d.content)], p.idx)
  {
  }

  /** Step when input i is accepted on its own. */
  lemma StepAccepts(p: Progress, i: nat, systemRoleSupported: bool)
    requires i < |p.vals| && Ascending(p.idx, i) && !Absorbs(p, i, systemRoleSupported)
    ensures Step(p, i, systemRoleSupported) == Progress(p.vals[i := Demote(p.vals[i], systemRoleSupported)], p.idx + [i])
  {
  }

  /** Accepting the object at position i extends the accepted positions by i. */
  lemma AtSnoc(fixed: seq<Message>, msgs: seq<Message>, idx: seq<nat>, i: nat)
    requires At(fixed, msgs, idx) && i < |msgs|
    ensures At(fixed + [msgs[i]], msgs, idx + [i])
  {
  }

  /**
   * One iteration of fix_and_merge_messages on msgs[i]: demote its role, then either append
   * its content to the last accepted message (same role) or accept the message itself.
   * On a list of distinct objects it does what Step does to their values.
   */
  method MergeStep(msgs: seq<Message>, i: nat, fixed: seq<Message>, ghost p: Progress, systemRoleSupported: bool)
    returns (next: seq<Message>)
    requires i < |msgs| == |p.vals| && Ascending(p.idx, i)
    requires forall k :: 0 <= k < |fixed| ==> fixed[k] in msgs
    modifies msgs
    ensures |next| <= |fixed| + 1
    ensures forall k :: 0 <= k < |next| ==> next[k] in msgs
    ensures old(Linked(msgs, fixed, p)) ==> Linked(msgs, next, Step(p, i, systemRoleSupported))
  {
    ghost var tracked := Distinct(msgs) && At(fixed, msgs, p.idx) && Mirrors(msgs, p.vals);
    ghost var d := Demote(p.vals[i], systemRoleSupported);
    var m := msgs[i];
    if !systemRoleSupported && m.role == System {
      m.role := User;
    }
    ghost var demoted := p.vals[i := d];
    if tracked {
      MirrorsWrite(msgs, i, p.vals, d);
    }
    if |fixed| > 0 && fixed[|fixed| - 1].role == m.role {
      var last := fixed[|fixed| - 1];
      ghost var l := if tracked then p.idx[|p.idx| - 1] else 0;
      ghost var merged := Msg(last.role, last.content + Separator + m.content);
      if tracked {
        assert last == msgs[l] && l < i;
        assert last.Value() == p.vals[l] && m.Value() == d;
        StepAbsorbs(p, i, systemRoleSupported);
      }
      last.content := last.content + Separator + m.content;
      next := fixed;
      if tracked {
        MirrorsWrite(msgs, l, demoted, merged);
      }
    } else {
      next := fixed + [m];
      if tracked {
        StepAccepts(p, i, systemRoleSupported);
        AtSnoc(fixed, msgs, p.idx, i);
      }
    }
  }

  /**
   * Model.fix_and_merge_messages. The accepted messages are objects of the input list; on a
   * list of distinct objects they are, in input order, the first object of each run of
   * equal demoted roles, each collecting its run's content; every input gets its demoted
   * role, and an input that was merged away keeps its content.
   */
  method FixAndMerge(msgs: seq<Message>, systemRoleSupported: bool) returns (fixed: seq<Message>)
    modifies msgs
    ensures |fixed| <= |msgs|
    ensures forall m :: m in fixed ==> m in msgs
    ensures Distinct(msgs) ==> Distinct(fixed)
    ensures Distinct(msgs) ==> fixed == Select(msgs, RunStarts(old(Snapshot(msgs)), |msgs|, systemRoleSupported))
    ensures Distinct(msgs) ==> forall i :: 0 <= i < |msgs| ==>
      (msgs[i] in fixed <==> i in RunStarts(old(Snapshot(msgs)), |msgs|, systemRoleSupported))
    ensures Distinct(msgs) ==> Snapshot(fixed) == Normalize(old(Snapshot(msgs)), systemRoleSupported)
    ensures Distinct(msgs) ==> forall i :: 0 <= i < |msgs| ==>
      msgs[i].role == DemoteRole(old(msgs[i].role), systemRoleSupported)
    ensures Distinct(msgs) ==> forall i :: 0 <= i < |msgs| && msgs[i] !in fixed ==>
      msgs[i].content == old(msgs[i].content)
  {
    ghost var orig := Snapshot(msgs);
    assert forall i :: 0 <= i < |msgs| ==> orig[i] == msgs[i].Value();
    ghost var p;
    fixed, p := MergeAll(msgs, systemRoleSupported);
    if Distinct(msgs) {
      PassOnObjects(msgs, fixed, orig, systemRoleSupported);
    }
  }

  /** What the whole pass leaves in a list of distinct objects whose values were orig. */
  lemma PassOnObjects(msgs: seq<Message>, fixed: seq<Message>, orig: seq<Msg>, systemRoleSupported: bool)
    requires Distinct(msgs) && |orig| == |msgs|
    requires Linked(msgs, fixed, PassAt(orig, |orig|, systemRoleSupported))
    ensures Distinct(fixed)
    ensures fixed == Select(msgs, RunStarts(orig, |msgs|, systemRoleSupported))
    ensures forall i :: 0 <= i < |msgs| ==> (msgs[i] in fixed <==> i in RunStarts(orig, |msgs|, systemRoleSupported))
    ensures Snapshot(fixed) == Normalize(orig, systemRoleSupported)
    ensures forall j :: 0 <= j < |msgs| ==> msgs[j].role == DemoteRole(orig[j].role, systemRoleSupported)
    ensures forall j :: 0 <= j < |msgs| && msgs[j] !in fixed ==> msgs[j].content == orig[j].content
  {
    var p := PassAt(orig, |orig|, systemRoleSupported);
    PassOutcome(orig, systemRoleSupported);
    PassAtStarts(orig, |orig|, systemRoleSupported);
    assert fixed == Select(msgs, p.idx);
    KeptAtRunStarts(msgs, fixed, orig, systemRoleSupported);
    MirrorsSnapshot(msgs, p.vals);
    AtFacts(fixed, msgs, p.idx);
    WrittenInPlace(msgs, fixed, p, orig, systemRoleSupported);
  }

  /** The loop of fix_and_merge_messages; on distinct objects it leaves what PassAt describes. */
  method MergeAll(msgs: seq<Message>, systemRoleSupported: bool) returns (fixed: seq<Message>, ghost p: Progress)
    modifies msgs
    ensures |fixed| <= |msgs|
    ensures forall k :: 0 <= k < |fixed| ==> fixed[k] in msgs
    ensures p == PassAt(old(Snapshot(msgs)), |msgs|, systemRoleSupported)
    ensures Linked(msgs, fixed, p)
  {
    ghost var orig := Snapshot(msgs);
    fixed := [];
    p := Progress(orig, []);
    var i := 0;
    while i < |msgs|
      invariant i <= |msgs| == |orig|
      invariant |fixed| <= i
      invariant forall k :: 0 <= k < |fixed| ==> fixed[k] in msgs
      invariant p == PassAt(orig, i, systemRoleSupported)
      invariant Linked(msgs, fixed, p)
    {
      fixed := MergeStep(msgs, i, fixed, p, systemRoleSupported);
      p := Step(p, i, systemRoleSupported);
      i := i + 1;
    }
  }

  /**
   * The whole pass on values: the accepted values are the normalized list, every value has
   * its demoted role, and an input that was not accepted keeps its content.
   */
  lemma PassOutcome(orig: seq<Msg>, systemRoleSupported: bool)
    ensures var p := PassAt(orig, |orig|, systemRoleSupported);
      && Picked(p.vals, p.idx) == Normalize(orig, systemRoleSupported)
      && (forall j :: 0 <= j < |orig| ==> p.vals[j].role == DemoteRole(orig[j].role, systemRoleSupported))
      && (forall j :: 0 <= j < |orig| && j !in p.idx ==> p.vals[j].content == orig[j].content)
  {
    PassAtPicked(orig, |orig|, systemRoleSupported);
    PassAtUntouched(orig, |orig|, systemRoleSupported);
    PassIsNormalize(orig, systemRoleSupported);
  }

  /** The role and content facts of PassOutcome, read off the objects before and after. */
  lemma WrittenInPlace(msgs: seq<Message>, fixed: seq<Message>, p: Progress, orig: seq<Msg>, systemRoleSupported: bool)
    requires Snapshot(msgs) == p.vals && |p.vals| == |msgs| == |orig|
    requires forall j :: 0 <= j < |msgs| ==> p.vals[j].role == DemoteRole(orig[j].role, systemRoleSupported)
    requires forall j :: 0 <= j < |msgs| && msgs[j] !in fixed ==> j !in p.idx
    requires forall j :: 0 <= j < |msgs| && j !in p.idx ==> p.vals[j].content == orig[j].content
    ensures forall j :: 0 <= j < |msgs| ==> msgs[j].role == DemoteRole(orig[j].role, systemRoleSupported)
    ensures forall j :: 0 <= j < |msgs| && msgs[j] !in fixed ==> msgs[j].content == orig[j].content
  {
    forall j | 0 <= j < |msgs| ensures msgs[j].Value() == p.vals[j] {
    }
  }

  /** The messages at ascending positions of a list of distinct objects, and their values. */
  lemma AtFacts(fixed: seq<Message>, msgs: seq<Message>, idx: seq<nat>)
    requires Distinct(msgs) && At(fixed, msgs, idx) && Ascending(idx, |msgs|)
    ensures Distinct(fixed)
    ensures Snapshot(fixed) == Picked(Snapshot(msgs), idx)
    ensures forall j :: 0 <= j < |msgs| && msgs[j] !in fixed ==> j !in idx
  {
    IncreasingPairs(idx);
    DistinctPairs(msgs);
    DistinctPairs(fixed);
    forall k, l | 0 <= k < l < |fixed| ensures fixed[k] != fixed[l] {
      assert idx[k] < idx[l];
    }
    forall j, k | 0 <= j < |msgs| && msgs[j] !in fixed && 0 <= k < |idx| ensures idx[k] != j {
      assert fixed[k] == msgs[idx[k]];
    }
  }

  /**
   * Llama2.fix_and_merge_messages: the base pass, then the special tokens written into the
   * accepted messages' content one by one.
   */
  method LlamaFixAndMerge(msgs: seq<Message>) returns (fixed: seq<Message>)
    modifies msgs
    ensures |fixed| <= |msgs|
    ensures forall m :: m in fixed ==> m in msgs
    ensures Distinct(msgs) ==> Distinct(fixed)
    ensures Distinct(msgs) ==> fixed == Select(msgs, RunStarts(old(Snapshot(msgs)), |msgs|, true))
    ensures Distinct(msgs) ==> forall i :: 0 <= i < |msgs| ==>
      (msgs[i] in fixed <==> i in RunStarts(old(Snapshot(msgs)), |msgs|, true))
    ensures Distinct(msgs) ==> Snapshot(fixed) == PF.FixAndMerge(PF.Llama2, old(Snapshot(msgs)))
    ensures Distinct(msgs) ==> forall i :: 0 <= i < |msgs| ==> msgs[i].role == old(msgs[i].role)
    ensures Distinct(msgs) ==> forall i :: 0 <= i < |msgs| && msgs[i] !in fixed ==>
      msgs[i].content == old(msgs[i].content)
  {
    var caps := PF.CapabilitiesOf(PF.Llama2);
    assert caps.systemRoleSupported && caps.addLlamaSpecialTokens;
    fixed := FixAndMerge(msgs, caps.systemRoleSupported);
    ghost var merged := Snapshot(fixed);
    if caps.addLlamaSpecialTokens {
      assert forall k :: 0 <= k < |fixed| ==> fixed[k] in msgs;
      AddSpecialTokens(fixed);
      assert Distinct(fixed) ==> Snapshot(fixed) == PF.LlamaTokens(merged);
    }
  }

  /**
   * The token loop of Llama2.fix_and_merge_messages: each accepted system or user message
   * has its content wrapped in place; roles and every other object stay as they were.
   */
  method AddSpecialTokens(fixed: seq<Message>)
    modifies fixed
    ensures forall m :: m in fixed ==> m.role == old(m.role)
    ensures Distinct(fixed) ==> Snapshot(fixed) == PF.LlamaTokens(old(Snapshot(fixed)))
  {
    ghost var merged := Snapshot(fixed);
    var i := 0;
    while i < |fixed|
      invariant 0 <= i <= |fixed| == |merged|
      invariant forall m :: m in fixed ==> m.role == old(m.role)
      invariant Distinct(fixed) ==> forall k :: 0 <= k < i ==> fixed[k].Value() == PF.LlamaWrap(merged[k])
      invariant Distinct(fixed) ==> forall k :: i <= k < |fixed| ==> fixed[k].Value() == merged[k]
    {
      var msg := fixed[i];
      label Visit:
      if msg.role == System {
        msg.content := PF.SysOpen + msg.content + PF.SysClose;
      }
      if msg.role == User {
        msg.content := PF.InstOpen + msg.content + PF.InstClose;
      }
      if Distinct(fixed) {
        DistinctPairs(fixed);
        forall k | 0 <= k < |fixed| && k != i ensures fixed[k].Value() == old@Visit(fixed[k].Value()) {
          assert fixed[k] != msg;
        }
      }
      i := i + 1;
    }
  }

  /**
   * CohereCommand.format_messages: prefixes each system message's content in place and
   * collects one {role, message} entry per message through the role table.
   */
  method FormatMessages(msgs: seq<Message>) returns (output: seq<PF.Turn>)
    modifies msgs
    ensures |output| == |msgs|
    ensures Distinct(msgs) ==> output == PF.CohereTurns(old(Snapshot(msgs)))
    ensures Distinct(msgs) ==> Snapshot(msgs) == PF.InstructAll(old(Snapshot(msgs)))
  {
    ghost var orig := Snapshot(msgs);
    ghost var cur := orig;
    output := [];
    var i := 0;
    while i < |msgs|
      invariant 0 <= i <= |msgs| == |cur| == |orig|
      invariant |output| == i
      invariant forall k :: 0 <= k < i ==> cur[k] == PF.Instructed(orig[k])
      invariant forall k :: i <= k < |orig| ==> cur[k] == orig[k]
      invariant Distinct(msgs) ==> Mirrors(msgs, cur)
      invariant Distinct(msgs) ==> forall k :: 0 <= k < i ==> output[k] == PF.CohereTurn(orig[k])
    {
      var msg := msgs[i];
      if msg.role == System {
        msg.content := PF.InstructionsPrefix + msg.content;
      }
      if Distinct(msgs) {
        MirrorsWrite(msgs, i, cur, PF.Instructed(orig[i]));
      }
      cur := cur[i := PF.Instructed(orig[i])];
      output := output + [PF.Turn(PF.CohereRole(msg.role), msg.content)];
      i := i + 1;
    }
    assert cur == PF.InstructAll(orig);
    if Distinct(msgs) {
      MirrorsSnapshot(msgs, cur);
    }
  }

  /** Putting an object that is not in a list of distinct objects in front keeps them distinct. */
  lemma {:induction false} ConsDistinct(system: Message, messages: seq<Message>)
    requires Distinct(messages) && system !in messages
    ensures Distinct([system] + messages)
    decreases |messages|
  {
    if messages != [] {
      var front := messages[..|messages| - 1];
      assert system !in front by {
        assert forall k :: 0 <= k < |front| ==> front[k] == messages[k];
      }
      ConsDistinct(system, front);
      assert ([system] + messages)[..|messages|] == [system] + front;
    }
  }

  /** A list of distinct objects framed by two further objects still holds each object once. */
  lemma FramedDistinct(system: Message, messages: seq<Message>, hint: Message)
    requires Distinct(messages) && system != hint && system !in messages && hint !in messages
    ensures Distinct([system] + messages + [hint])
  {
    ConsDistinct(system, messages);
    var front := [system] + messages;
    assert (front + [hint])[..|front|] == front;
  }

  /** The values of a list framed by two further objects. */
  lemma FramedSnapshot(system: Message, messages: seq<Message>, hint: Message)
    requires system.role == System && hint.role == Assistant
    ensures var framed := [system] + messages + [hint];
      && Snapshot(framed) == PF.Framed(Snapshot(messages), system.content, hint.content)
      && framed[1..|messages| + 1] == messages
  {
    var framed := [system] + messages + [hint];
    assert framed[1..|messages| + 1] == messages;
  }

  /**
   * self.fix_and_merge_messages for variant p: Llama2's override, or the base pass with the
   * variant's capabilities. Every variant keeps the system role, so runs are of plain roles.
   */
  method FixAndMergeFor(p: PF.Provider, msgs: seq<Message>) returns (fixed: seq<Message>)
    modifies msgs
    ensures |fixed| <= |msgs|
    ensures forall m :: m in fixed ==> m in msgs
    ensures Distinct(msgs) ==> Distinct(fixed)
    ensures Distinct(msgs) ==> Snapshot(fixed) == PF.FixAndMerge(p, old(Snapshot(msgs)))
    ensures Distinct(msgs) ==> fixed == Select(msgs, RunStarts(old(Snapshot(msgs)), |msgs|, true))
    ensures Distinct(msgs) ==> forall i :: 0 <= i < |msgs| && msgs[i] !in fixed ==>
      msgs[i].Value() == old(msgs[i].Value())
    ensures Distinct(msgs) ==> forall i :: 0 <= i < |msgs| && msgs[i] !in fixed ==>
      msgs[i].Value() == old(Snapshot(msgs))[i]
  {
    if p == PF.Llama2 {
      fixed := LlamaFixAndMerge(msgs);
    } else {
      fixed := FixAndMerge(msgs, PF.CapabilitiesOf(p).systemRoleSupported);
    }
  }

  /**
   * Model.build_prompt: inserts a new system message at the front of the caller's list and
   * appends a new assistant message, then runs the variant's fix_and_merge_messages.
   * callerList is the caller's list object after the call.
   */
  method BuildPrompt(p: PF.Provider, messages: seq<Message>, rt: PF.ReturnType, instruction: string)
    returns (callerList: seq<Message>, prompt: seq<Message>)
    modifies messages
    ensures |callerList| == |messages| + 2 && callerList[1..|messages| + 1] == messages
    ensures fresh(callerList[0]) && fresh(callerList[|messages| + 1])
    ensures forall m :: m in prompt ==> m in callerList
    ensures Distinct(messages) ==>
      Snapshot(prompt) == PF.BuildPrompt(p, old(Snapshot(messages)), rt, instruction)
    ensures Distinct(messages) ==> (prompt ==
      Select(callerList, RunStarts(PF.Framed(old(Snapshot(messages)), instruction, PF.AssistantHint(rt)), |messages| + 2, true)))
    ensures Distinct(messages) && messages != [] ==> (messages[0] in prompt <==> old(messages[0].role) != System)
    ensures Distinct(messages) ==> forall j, i :: 0 <= j && i == j + 1 && i < |messages| ==>
      (messages[i] in prompt <==> old(messages[j].role) != old(messages[i].role))
    ensures Distinct(messages) ==> forall i :: 0 <= i < |messages| && messages[i] !in prompt ==>
      messages[i].Value() == old(messages[i].Value())
    ensures Distinct(messages) ==> Distinct(prompt)
    ensures Distinct(messages) ==> forall i :: 0 <= i < |callerList| && callerList[i] !in prompt ==>
      callerList[i].Value() == PF.Framed(old(Snapshot(messages)), instruction, PF.AssistantHint(rt))[i]
  {
    ghost var orig := Snapshot(messages);
    assert forall i :: 0 <= i < |messages| ==> orig[i].role == old(messages[i].role);
    callerList := Frame(messages, instruction, PF.AssistantHint(rt));
    prompt := FixAndMergeFor(p, callerList);
    if Distinct(messages) {
      FramedKept(callerList, messages, prompt, orig, instruction, PF.AssistantHint(rt));
    }
  }

  /**
   * The two list updates of build_prompt: a new system message with the instruction inserted
   * at the front and a new assistant message with the hint appended.
   */
  method Frame(messages: seq<Message>, instruction: string, hint: string) returns (callerList: seq<Message>)
    ensures |callerList| == |messages| + 2 && callerList[1..|messages| + 1] == messages
    ensures fresh(callerList[0]) && fresh(callerList[|messages| + 1])
    ensures Snapshot(callerList) == PF.Framed(Snapshot(messages), instruction, hint)
    ensures Distinct(messages) ==> Distinct(callerList)
  {
    var system := new Message(System, instruction);
    var head := new Message(Assistant, hint);
    callerList := [system] + messages + [head];
    FramedSnapshot(system, messages, head);
    if Distinct(messages) {
      FramedDistinct(system, messages, head);
    }
  }

  /**
   * The caller's message i is kept exactly when its role differs from the one before it in
   * the framed list: the previous caller message, or the system message for the first.
   */
  lemma FramedKept(callerList: seq<Message>, messages: seq<Message>, prompt: seq<Message>,
                   orig: seq<Msg>, instruction: string, hint: string)
    requires Distinct(callerList) && |callerList| == |messages| + 2 && |orig| == |messages|
    requires callerList[1..|messages| + 1] == messages
    requires prompt == Select(callerList, RunStarts(PF.Framed(orig, instruction, hint), |messages| + 2, true))
    ensures messages != [] ==> (messages[0] in prompt <==> orig[0].role != System)
    ensures forall j, i :: 0 <= j && i == j + 1 && i < |messages| ==>
      (messages[i] in prompt <==> orig[j].role != orig[i].role)
  {
    var framed := PF.Framed(orig, instruction, hint);
    KeptAtRunStarts(callerList, prompt, framed, true);
    PF.FramedRunStarts(orig, instruction, hint);
    forall i | 0 <= i < |messages|
      ensures messages[i] in prompt <==> (i + 1) in RunStarts(framed, |framed|, true)
    {
      assert callerList[1..|messages| + 1][i] == callerList[i + 1];
    }
  }

  /**
   * bedrock_format of each variant. Only the Cohere variants change the messages (through
   * format_messages); Claude pops the first message off the list, and remaining is the
   * list after the call.
   */
  method BedrockFormat(p: PF.Provider, msgs: seq<Message>, settings: Config, sample: real)
    returns (remaining: seq<Message>, body: PF.Result<PF.Body, PF.Error>)
    modifies msgs
    ensures remaining == if p == PF.Claude && msgs != [] then msgs[1..] else msgs
    ensures p != PF.CohereCommand && p != PF.CohereCommandR ==>
      body == PF.BedrockFormat(p, old(Snapshot(msgs)), settings, sample) && Snapshot(msgs) == old(Snapshot(msgs))
    ensures Distinct(msgs) ==> body == PF.BedrockFormat(p, old(Snapshot(msgs)), settings, sample)
    ensures Distinct(msgs) ==>
      Snapshot(msgs) == if p == PF.CohereCommand || p == PF.CohereCommandR
                        then PF.InstructAll(old(Snapshot(msgs)))
                        else old(Snapshot(msgs))
  {
    remaining := msgs;
    match p
    case Generic =>
      body := PF.Err(PF.NotImplemented);
    case Llama2 =>
      body := PF.Ok(PF.LlamaFormat(Snapshot(msgs), settings, sample));
    case CohereCommand =>
      var turns := FormatMessages(msgs);
      body := PF.Ok(PF.CohereFormat(turns, settings, sample));
    case CohereCommandR =>
      var turns := FormatMessages(msgs);
      body := PF.Ok(PF.CohereRFormat(turns, settings, sample));
    case Claude =>
      if msgs == [] {
        body := PF.Err(PF.PopFromEmptyList);
      } else {
        var system := msgs[0];
        remaining := msgs[1..];
        assert Snapshot(remaining) == Snapshot(msgs)[1..];
        body := PF.Ok(PF.ClaudeBody(system.content,
                                    Setting(settings, "max_tokens", ClaudeMaxTokensDefault),
                                    Snapshot(remaining),
                                    PF.Temperature(settings, sample),
                                    Setting(settings, "anthropic_version", AnthropicVersionDefault)));
      }
  }
}
