/**
 * The message normaliser of Model.fix_and_merge_messages: one left-to-right pass that
 * demotes `system` to `user` when the provider has no system role, and merges every
 * message into the previously accepted one when both carry the same role.
 */
module MessageNormalizer {
  import opened Messages

  /** What a merge puts between the contents of two same-role messages. */
  const Separator: string := "\n\n"

  /** The role rewrite applied to each message before it is compared. */
  function DemoteRole(role: Role, systemRoleSupported: bool): Role
  {
    if !systemRoleSupported && role == System then User else role
  }

  function Demote(m: Msg, systemRoleSupported: bool): Msg
  {
    Msg(DemoteRole(m.role, systemRoleSupported), m.content)
  }

  function DemoteAll(s: seq<Msg>, systemRoleSupported: bool): seq<Msg>
  {
    seq(|s|, i requires 0 <= i < |s| => Demote(s[i], systemRoleSupported))
  }

  /** No two neighbours share a role. */
  ghost predicate Alternating(s: seq<Msg>)
  {
    forall i, j :: 0 <= i < j < |s| && j == i + 1 ==> s[i].role != s[j].role
  }

  /** The roles that occur in s. */
  ghost function Roles(s: seq<Msg>): set<Role>
  {
    set i | 0 <= i < |s| :: s[i].role
  }

  /** One step of the pass: fold message m into the accepted list acc. */
  function MergeInto(acc: seq<Msg>, m: Msg): seq<Msg>
  {
    if acc != [] && acc[|acc| - 1].role == m.role then
      acc[..|acc| - 1] + [Msg(m.role, acc[|acc| - 1].content + Separator + m.content)]
    else
      acc + [m]
  }

  /** The whole pass over s (roles already demoted), as a left fold of MergeInto. */
  function Merge(s: seq<Msg>): (r: seq<Msg>)
    ensures |r| <= |s|
    ensures r == [] <==> s == []
  {
    if s == [] then [] else MergeInto(Merge(s[..|s| - 1]), s[|s| - 1])
  }

  /** One more input is one more MergeInto step. */
  lemma MergeSnoc(s: seq<Msg>, m: Msg)
    ensures Merge(s + [m]) == MergeInto(Merge(s), m)
  {
    assert (s + [m])[..|s|] == s;
  }

  /** The output alternates roles and ends with the last input's role. */
  lemma {:induction false} MergeAlternates(s: seq<Msg>)
    ensures Alternating(Merge(s))
    ensures s != [] ==> Merge(s)[|Merge(s)| - 1].role == s[|s| - 1].role
  {
    if s != [] {
      var t, m := s[..|s| - 1], s[|s| - 1];
      MergeAlternates(t);
      MergeIntoAlternates(Merge(t), m);
    }
  }

  /** One step keeps an alternating list alternating, and leaves m's role last. */
  lemma MergeIntoAlternates(acc: seq<Msg>, m: Msg)
    requires Alternating(acc)
    ensures var r := MergeInto(acc, m); Alternating(r) && r != [] && r[|r| - 1].role == m.role
  {
    var r := MergeInto(acc, m);
    if acc != [] && acc[|acc| - 1].role == m.role {
      assert forall k :: 0 <= k < |acc| ==> r[k].role == acc[k].role;
      SameRolesAlternate(acc, r);
    } else {
      SnocAlternates(acc, m);
    }
  }

  /** A message whose role differs from the last one extends an alternating list. */
  lemma SnocAlternates(acc: seq<Msg>, m: Msg)
    requires Alternating(acc) && (acc == [] || acc[|acc| - 1].role != m.role)
    ensures Alternating(acc + [m])
  {
    var r := acc + [m];
    forall i, j | 0 <= i < j < |r| && j == i + 1 ensures r[i].role != r[j].role {
      assert r[i] == acc[i];
      if j < |r| - 1 {
        assert r[j] == acc[j];
      }
    }
  }

  /** Alternation depends on the roles only. */
  lemma SameRolesAlternate(a: seq<Msg>, b: seq<Msg>)
    requires Alternating(a) && |a| == |b|
    requires forall k :: 0 <= k < |a| ==> a[k].role == b[k].role
    ensures Alternating(b)
  {
    forall i, j | 0 <= i < j < |b| && j == i + 1 ensures b[i].role != b[j].role {
      assert a[i].role != a[j].role;
    }
  }

  /** The output carries exactly the roles of the input. */
  lemma {:induction false} MergeKeepsRoles(s: seq<Msg>)
    ensures Roles(Merge(s)) == Roles(s)
  {
    if s != [] {
      var t, m := s[..|s| - 1], s[|s| - 1];
      assert t + [m] == s;
      MergeKeepsRoles(t);
      RolesSnoc(t, m);
      var prev := Merge(t);
      if prev != [] && prev[|prev| - 1].role == m.role {
        var k := |prev| - 1;
        RolesSnoc(prev[..k], prev[k]);
        assert prev[..k] + [prev[k]] == prev;
        RolesSnoc(prev[..k], Msg(m.role, prev[k].content + Separator + m.content));
      } else {
        RolesSnoc(prev, m);
      }
    }
  }

  lemma RolesSnoc(s: seq<Msg>, m: Msg)
    ensures Roles(s + [m]) == Roles(s) + {m.role}
  {
    var t := s + [m];
    assert t[|s|] == m;
    forall r | r in Roles(s) ensures r in Roles(t) {
      var i :| 0 <= i < |s| && s[i].role == r;
      assert t[i] == s[i];
    }
  }

  /** Model.fix_and_merge_messages on values. */
  function Normalize(s: seq<Msg>, systemRoleSupported: bool): seq<Msg>
  {
    Merge(DemoteAll(s, systemRoleSupported))
  }

  /** The pass is a left fold: one more input is one more MergeInto step. */
  lemma NormalizeSnoc(s: seq<Msg>, m: Msg, systemRoleSupported: bool)
    ensures Normalize(s + [m], systemRoleSupported)
         == MergeInto(Normalize(s, systemRoleSupported), Demote(m, systemRoleSupported))
  {
    var d := DemoteAll(s + [m], systemRoleSupported);
    assert d[..|d| - 1] == DemoteAll(s, systemRoleSupported);
  }

  /** The accepted list after the pass has visited the first n messages of s. */
  ghost function PassPrefix(s: seq<Msg>, n: nat, systemRoleSupported: bool): seq<Msg>
    requires n <= |s|
  {
    if n == 0 then [] else MergeInto(PassPrefix(s, n - 1, systemRoleSupported), Demote(s[n - 1], systemRoleSupported))
  }

  lemma {:induction false} PassPrefixIsNormalize(s: seq<Msg>, n: nat, systemRoleSupported: bool)
    requires n <= |s|
    ensures PassPrefix(s, n, systemRoleSupported) == Normalize(s[..n], systemRoleSupported)
  {
    if n > 0 {
      var k := n - 1;
      PassPrefixIsNormalize(s, k, systemRoleSupported);
      NormalizePrefixSnoc(s, k, systemRoleSupported);
      assert PassPrefix(s, n, systemRoleSupported)
          == MergeInto(PassPrefix(s, k, systemRoleSupported), Demote(s[k], systemRoleSupported));
    } else {
      assert s[..n] == [];
    }
  }

  /** The pass run over all of s is Normalize. */
  lemma PassIsNormalize(s: seq<Msg>, systemRoleSupported: bool)
    ensures PassPrefix(s, |s|, systemRoleSupported) == Normalize(s, systemRoleSupported)
  {
    PassPrefixIsNormalize(s, |s|, systemRoleSupported);
    assert s[..|s|] == s;
  }

  lemma NormalizePrefixSnoc(s: seq<Msg>, n: nat, systemRoleSupported: bool)
    requires n < |s|
    ensures Normalize(s[..n + 1], systemRoleSupported)
         == MergeInto(Normalize(s[..n], systemRoleSupported), Demote(s[n], systemRoleSupported))
  {
    assert s[..n + 1] == s[..n] + [s[n]];
    NormalizeSnoc(s[..n], s[n], systemRoleSupported);
  }

  /** Message j opens a same-role run once roles are demoted: it is first, or its neighbour differs. */
  predicate StartsRun(s: seq<Msg>, j: nat, systemRoleSupported: bool)
    requires j < |s|
  {
    j == 0 || DemoteRole(s[j - 1].role, systemRoleSupported) != DemoteRole(s[j].role, systemRoleSupported)
  }

  /** The positions, in increasing order, among the first n messages where a run opens. */
  function RunStarts(s: seq<Msg>, n: nat, systemRoleSupported: bool): (r: seq<nat>)
    requires n <= |s|
    ensures forall k :: 0 <= k < |r| ==> r[k] < n
  {
    if n == 0 then []
    else RunStarts(s, n - 1, systemRoleSupported) + (if StartsRun(s, n - 1, systemRoleSupported) then [n - 1] else [])
  }

  /** A position below n is listed exactly when a run opens there. */
  lemma {:induction false} RunStartsMembers(s: seq<Msg>, n: nat, systemRoleSupported: bool)
    requires n <= |s|
    ensures forall j :: 0 <= j < n ==> (j in RunStarts(s, n, systemRoleSupported) <==> StartsRun(s, j, systemRoleSupported))
  {
    if n > 0 {
      RunStartsMembers(s, n - 1, systemRoleSupported);
    }
  }

  /** RunStartsMembers at one position. */
  lemma RunStartsAt(s: seq<Msg>, n: nat, j: nat, systemRoleSupported: bool)
    requires j < n <= |s|
    ensures j in RunStarts(s, n, systemRoleSupported) <==> StartsRun(s, j, systemRoleSupported)
  {
    RunStartsMembers(s, n, systemRoleSupported);
  }

  // ---------------------------------------------------------------------------
  // Role demotion

  /**
   * Without a system role no output message is `system`; with one, roles pass through
   * unchanged. Either way the output's roles are exactly the demoted input's roles.
   */
  lemma NormalizeRoles(s: seq<Msg>, systemRoleSupported: bool)
    ensures systemRoleSupported ==> Normalize(s, systemRoleSupported) == Merge(s)
    ensures !systemRoleSupported ==>
      forall i :: 0 <= i < |Normalize(s, false)| ==> Normalize(s, false)[i].role != System
    ensures Roles(Normalize(s, systemRoleSupported)) == Roles(DemoteAll(s, systemRoleSupported))
  {
    var d := DemoteAll(s, systemRoleSupported);
    MergeKeepsRoles(d);
    if systemRoleSupported {
      assert d == s;
    } else {
      var r := Normalize(s, false);
      forall i | 0 <= i < |r| ensures r[i].role != System {
        assert r[i].role in Roles(r);
        var j :| 0 <= j < |d| && d[j].role == r[i].role;
      }
    }
  }

  // ---------------------------------------------------------------------------
  // Merging keeps every piece of content

  /** Joining the outputs with the separator gives back the inputs joined the same way. */
  lemma {:induction false} MergeKeepsJoinedContent(s: seq<Msg>)
    ensures Join(Contents(Merge(s)), Separator) == Join(Contents(s), Separator)
  {
    if s != [] {
      var t, x := s[..|s| - 1], s[|s| - 1];
      assert s == t + [x];
      MergeSnoc(t, x);
      if t == [] {
        assert Merge(s) == [x];
      } else {
        MergeKeepsJoinedContent(t);
        ContentsSnoc(t, x);
        JoinSnoc(Contents(t), x.content, Separator);
        JoinMergeInto(Merge(t), x);
      }
    }
  }

  /** One MergeInto step adds the separator and the message's content to the joined text. */
  lemma JoinMergeInto(acc: seq<Msg>, x: Msg)
    requires acc != []
    ensures Join(Contents(MergeInto(acc, x)), Separator) == Join(Contents(acc), Separator) + Separator + x.content
  {
    var k := |acc| - 1;
    if acc[k].role == x.role {
      var merged := Msg(x.role, acc[k].content + Separator + x.content);
      assert MergeInto(acc, x) == acc[..k] + [merged];
      ContentsSnoc(acc[..k], merged);
      ContentsSnoc(acc[..k], acc[k]);
      assert acc[..k] + [acc[k]] == acc;
      if k > 0 {
        JoinSnoc(Contents(acc[..k]), merged.content, Separator);
        JoinSnoc(Contents(acc[..k]), acc[k].content, Separator);
      }
    } else {
      ContentsSnoc(acc, x);
      JoinSnoc(Contents(acc), x.content, Separator);
    }
  }

  // ---------------------------------------------------------------------------
  // Each output message is one maximal run of same-role inputs

  /** A non-empty block of messages that all carry the block's first role. */
  ghost predicate SameRole(run: seq<Msg>)
  {
    run != [] && forall i :: 0 <= i < |run| ==> run[i].role == run[0].role
  }

  function Flatten(runs: seq<seq<Msg>>): seq<Msg>
  {
    if runs == [] then [] else Flatten(runs[..|runs| - 1]) + runs[|runs| - 1]
  }

  /** runs cuts s, in order, into maximal blocks of consecutive same-role messages. */
  ghost predicate IsRunSplit(s: seq<Msg>, runs: seq<seq<Msg>>)
  {
    && Flatten(runs) == s
    && (forall k :: 0 <= k < |runs| ==> SameRole(runs[k]))
    && (forall k, l :: 0 <= k < l < |runs| && l == k + 1 ==> runs[k][0].role != runs[l][0].role)
  }

  /** The message a run becomes: its role, and its contents joined by the separator. */
  function MergeRun(run: seq<Msg>): Msg
    requires run != []
  {
    Msg(run[0].role, Join(Contents(run), Separator))
  }

  function Collapse(runs: seq<seq<Msg>>): seq<Msg>
    requires forall k :: 0 <= k < |runs| ==> runs[k] != []
  {
    seq(|runs|, k requires 0 <= k < |runs| => MergeRun(runs[k]))
  }

  /** A split of s into maximal same-role runs; one always exists. */
  function Runs(s: seq<Msg>): (runs: seq<seq<Msg>>)
    ensures IsRunSplit(s, runs)
  {
    if s == [] then []
    else
      var t, m := s[..|s| - 1], s[|s| - 1];
      assert t + [m] == s;
      RunSplitSnoc(t, Runs(t), m);
      AddToRuns(Runs(t), m)
  }

  /** m joins the last run when it has m's role, and starts a new run otherwise. */
  function AddToRuns(runs: seq<seq<Msg>>, m: Msg): seq<seq<Msg>>
  {
    if runs != [] && runs[|runs| - 1] != [] && runs[|runs| - 1][0].role == m.role
    then runs[..|runs| - 1] + [runs[|runs| - 1] + [m]]
    else runs + [[m]]
  }

  lemma RunSplitSnoc(s: seq<Msg>, runs: seq<seq<Msg>>, m: Msg)
    requires IsRunSplit(s, runs)
    ensures IsRunSplit(s + [m], AddToRuns(runs, m))
  {
    if runs != [] && runs[|runs| - 1][0].role == m.role {
      RunExtendSnoc(s, runs, m);
    } else {
      RunOpenSnoc(s, runs, m);
    }
  }

  /** m joins the last run, which has its role. */
  lemma RunExtendSnoc(s: seq<Msg>, runs: seq<seq<Msg>>, m: Msg)
    requires IsRunSplit(s, runs) && runs != [] && runs[|runs| - 1][0].role == m.role
    ensures IsRunSplit(s + [m], runs[..|runs| - 1] + [runs[|runs| - 1] + [m]])
  {
    var n := |runs| - 1;
    var r := runs[..n] + [runs[n] + [m]];
    assert runs == runs[..n] + [runs[n]];
    FlattenSnoc(runs[..n], runs[n]);
    FlattenSnoc(runs[..n], runs[n] + [m]);
    assert SameRole(runs[n]);
    forall k | 0 <= k < |r| ensures SameRole(r[k]) {
      if k < n {
        assert r[k] == runs[k];
      }
    }
    forall k, l | 0 <= k < l < |r| && l == k + 1 ensures r[k][0].role != r[l][0].role {
      assert r[k][0] == runs[k][0] && r[l][0] == runs[l][0];
    }
  }

  /** m opens a run of its own. */
  lemma RunOpenSnoc(s: seq<Msg>, runs: seq<seq<Msg>>, m: Msg)
    requires IsRunSplit(s, runs) && (runs == [] || runs[|runs| - 1][0].role != m.role)
    ensures IsRunSplit(s + [m], runs + [[m]])
  {
    var r := runs + [[m]];
    FlattenSnoc(runs, [m]);
    forall k | 0 <= k < |r| ensures SameRole(r[k]) {
      if k < |runs| {
        assert r[k] == runs[k];
      }
    }
    forall k, l | 0 <= k < l < |r| && l == k + 1 ensures r[k][0].role != r[l][0].role {
      if l < |runs| {
        assert r[k] == runs[k] && r[l] == runs[l];
      }
    }
  }

  lemma FlattenSnoc(runs: seq<seq<Msg>>, last: seq<Msg>)
    ensures Flatten(runs + [last]) == Flatten(runs) + last
  {
    assert (runs + [last])[..|runs|] == runs;
  }

  lemma CollapseSnoc(runs: seq<seq<Msg>>, last: seq<Msg>)
    requires forall k :: 0 <= k < |runs| ==> runs[k] != []
    requires last != []
    ensures Collapse(runs + [last]) == Collapse(runs) + [MergeRun(last)]
  {
  }

  /** Merging any input equals collapsing any of its maximal-run splits. */
  lemma {:induction false} MergeIsCollapsedRuns(s: seq<Msg>, runs: seq<seq<Msg>>)
    requires IsRunSplit(s, runs)
    decreases |s|, 1
    ensures Merge(s) == Collapse(runs)
  {
    if runs == [] {
      assert s == [];
    } else {
      var n := |runs| - 1;
      var init, last := runs[..n], runs[n];
      assert runs == init + [last];
      FlattenSnoc(init, last);
      if |last| == 1 {
        MergeNewRun(s, init, last[0]);
      } else {
        assert last == last[..|last| - 1] + [last[|last| - 1]];
        MergeLongerRun(s, init, last[..|last| - 1], last[|last| - 1]);
      }
    }
  }

  /** Inductive step of MergeIsCollapsedRuns when the last run is a single message. */
  lemma {:induction false} MergeNewRun(s: seq<Msg>, init: seq<seq<Msg>>, x: Msg)
    requires IsRunSplit(s, init + [[x]])
    decreases |s|, 0
    ensures Merge(s) == Collapse(init + [[x]])
  {
    var runs := init + [[x]];
    FlattenSnoc(init, [x]);
    var t := Flatten(init);
    assert s == t + [x];
    assert s[..|s| - 1] == t;
    forall k | 0 <= k < |init| ensures SameRole(init[k]) {
      assert runs[k] == init[k];
    }
    forall k | 0 <= k < |init| - 1 ensures init[k][0].role != init[k + 1][0].role {
      assert runs[k] == init[k] && runs[k + 1] == init[k + 1];
    }
    assert IsRunSplit(t, init);
    MergeIsCollapsedRuns(t, init);
    CollapseSnoc(init, [x]);
    assert MergeRun([x]) == x;
    if init != [] {
      assert Collapse(init)[|init| - 1].role == runs[|init| - 1][0].role;
    }
  }

  /** Inductive step of MergeIsCollapsedRuns when the last run has more than one message. */
  lemma {:induction false} MergeLongerRun(s: seq<Msg>, init: seq<seq<Msg>>, shorter: seq<Msg>, x: Msg)
    requires shorter != []
    requires IsRunSplit(s, init + [shorter + [x]])
    decreases |s|, 0
    ensures Merge(s) == Collapse(init + [shorter + [x]])
  {
    var runs' := init + [shorter];
    var t := Flatten(runs');
    RunSplitShorter(s, init, shorter, x);
    MergeIsCollapsedRuns(t, runs');
    MergeSnoc(t, x);
    CollapseSnoc(init, shorter);
    CollapseSnoc(init, shorter + [x]);
    MergeRunSnoc(shorter, x);
  }

  /** Dropping the last message of the last run still leaves a split into maximal runs. */
  lemma RunSplitShorter(s: seq<Msg>, init: seq<seq<Msg>>, shorter: seq<Msg>, x: Msg)
    requires shorter != []
    requires IsRunSplit(s, init + [shorter + [x]])
    ensures s == Flatten(init + [shorter]) + [x]
    ensures IsRunSplit(Flatten(init + [shorter]), init + [shorter])
    ensures x.role == shorter[0].role
  {
    var last := shorter + [x];
    var runs := init + [last];
    var runs' := init + [shorter];
    FlattenSnoc(init, last);
    FlattenSnoc(init, shorter);
    assert SameRole(runs[|init|]);
    assert x.role == last[|last| - 1].role == last[0].role == shorter[0].role;
    forall k | 0 <= k < |runs'| ensures SameRole(runs'[k]) {
      if k < |init| {
        assert runs'[k] == runs[k];
      } else {
        forall i | 0 <= i < |shorter| ensures shorter[i].role == shorter[0].role {
          assert shorter[i] == last[i];
        }
      }
    }
    forall k, l | 0 <= k < l < |runs'| && l == k + 1 ensures runs'[k][0].role != runs'[l][0].role {
      assert runs'[k][0] == runs[k][0] && runs'[l][0] == runs[l][0];
    }
  }

  /** A run grown by one same-role message merges to the old merge, the separator and it. */
  lemma MergeRunSnoc(run: seq<Msg>, x: Msg)
    requires run != [] && x.role == run[0].role
    ensures MergeRun(run + [x]) == Msg(x.role, MergeRun(run).content + Separator + x.content)
  {
    ContentsSnoc(run, x);
    JoinSnoc(Contents(run), x.content, Separator);
  }

  // ---------------------------------------------------------------------------
  // Normalising twice changes nothing

  /** A list that already alternates is left as it is. */
  lemma {:induction false} MergeOfAlternating(s: seq<Msg>)
    requires Alternating(s)
    ensures Merge(s) == s
  {
    if s != [] {
      var t := s[..|s| - 1];
      assert Alternating(t);
      MergeOfAlternating(t);
    }
  }

  /** Running the pass on its own output gives the same list back. */
  lemma NormalizeIdempotent(s: seq<Msg>, systemRoleSupported: bool)
    ensures Normalize(Normalize(s, systemRoleSupported), systemRoleSupported)
         == Normalize(s, systemRoleSupported)
  {
    var r := Normalize(s, systemRoleSupported);
    NormalizeRoles(s, systemRoleSupported);
    MergeAlternates(DemoteAll(s, systemRoleSupported));
    assert DemoteAll(r, systemRoleSupported) == r;
    MergeOfAlternating(r);
  }

  // ---------------------------------------------------------------------------
  // What stays at the ends of the list

  /** The first output message keeps the first input's role and starts with its content. */
  lemma {:induction false} MergeFirst(s: seq<Msg>)
    requires s != []
    ensures Merge(s)[0].role == s[0].role
    ensures s[0].content <= Merge(s)[0].content
  {
    var t := s[..|s| - 1];
    if t != [] {
      var x := s[|s| - 1];
      assert s == t + [x];
      MergeFirst(t);
      assert t[0] == s[0];
      var acc := Merge(t);
      assert Merge(s) == MergeInto(acc, x);
      if acc[|acc| - 1].role == x.role && |acc| == 1 {
        assert Merge(s)[0].content == acc[0].content + Separator + x.content;
      } else {
        assert Merge(s)[0] == acc[0];
      }
    }
  }

  /** The last output message carries the last input's role and ends with its content. */
  lemma MergeLast(s: seq<Msg>, m: Msg)
    ensures Merge(s + [m])[|Merge(s + [m])| - 1].role == m.role
    ensures Merge(s + [m])[|Merge(s + [m])| - 1].content ==
      if s != [] && Merge(s)[|Merge(s)| - 1].role == m.role
      then Merge(s)[|Merge(s)| - 1].content + Separator + m.content
      else m.content
  {
    assert (s + [m])[..|s|] == s;
  }

  ghost predicate EndsWith(s: string, suffix: string)
  {
    |suffix| <= |s| && s[|s| - |suffix|..] == suffix
  }

  /** A suffix survives appending the separator and the same tail to both sides. */
  lemma EndsWithSeparated(x: string, suffix: string, tail: string)
    requires EndsWith(x, suffix)
    ensures EndsWith(x + Separator + tail, suffix + Separator + tail)
  {
    var y, t := x + Separator + tail, suffix + Separator + tail;
    assert y[|y| - |t|..] == x[|x| - |suffix|..] + Separator + tail;
  }

  /**
   * Appending m to a non-empty list: the last output has m's role, and is m alone or, when
   * the list already ended with m's role, ends with that last input, the separator and m.
   */
  lemma MergeEnds(front: seq<Msg>, m: Msg)
    requires front != []
    ensures var r := Merge(front + [m]);
      && r[|r| - 1].role == m.role
      && (if front[|front| - 1].role == m.role
          then EndsWith(r[|r| - 1].content, front[|front| - 1].content + Separator + m.content)
          else r[|r| - 1].content == m.content)
  {
    MergeLast(front, m);
    MergeAlternates(front);
    if front[|front| - 1].role == m.role {
      var pre := Merge(front);
      MergeLastEndsWith(front);
      EndsWithSeparated(pre[|pre| - 1].content, front[|front| - 1].content, m.content);
    }
  }

  /** The last output message ends with the last input's content. */
  lemma MergeLastEndsWith(s: seq<Msg>)
    requires s != []
    ensures EndsWith(Merge(s)[|Merge(s)| - 1].content, s[|s| - 1].content)
  {
    var n := |s| - 1;
    assert s == s[..n] + [s[n]];
    MergeLast(s[..n], s[n]);
    var t := Merge(s[..n]);
    if n > 0 && t[|t| - 1].role == s[n].role {
      EndsWithJoined(t[|t| - 1].content + Separator, s[n].content);
    } else {
      EndsWithItself(s[n].content);
    }
  }

  lemma EndsWithItself(s: string)
    ensures EndsWith(s, s)
  {
  }

  lemma EndsWithJoined(head: string, s: string)
    ensures EndsWith(head + s, s)
  {
    assert (head + s)[|head|..] == s;
  }

  /** A role absent from all inputs after the first is absent from all outputs after the first. */
  lemma {:induction false} MergeKeepsRoleOutOfTail(s: seq<Msg>, role: Role)
    requires forall i :: 1 <= i < |s| ==> s[i].role != role
    ensures forall i :: 1 <= i < |Merge(s)| ==> Merge(s)[i].role != role
  {
    if |s| > 1 {
      var t, x := s[..|s| - 1], s[|s| - 1];
      forall i | 1 <= i < |t| ensures t[i].role != role {
        assert t[i] == s[i];
      }
      MergeKeepsRoleOutOfTail(t, role);
      var acc := Merge(t);
      assert Merge(s) == MergeInto(acc, x);
      MergeIntoKeepsRoleOutOfTail(acc, x, role);
    }
  }

  lemma MergeIntoKeepsRoleOutOfTail(acc: seq<Msg>, x: Msg, role: Role)
    requires acc != [] && x.role != role
    requires forall i :: 1 <= i < |acc| ==> acc[i].role != role
    ensures forall i :: 1 <= i < |MergeInto(acc, x)| ==> MergeInto(acc, x)[i].role != role
  {
  }
}
