/** Grouping tasks under date headings the way both task views do it: one pass
    over the tasks fills a `Map<string, Task[]>` (`has`, `set(date, [])`,
    `get(date)!.push(task)`), and the map's entries come out in insertion
    order. */
module Grouping {
  import opened Base
  import opened Labels
  import opened Models

  /** The headings of the groups, in order (the map's keys). */
  function Headings(gs: seq<TaskGroup>): (r: seq<Label>)
    ensures |r| == |gs|
    ensures forall i :: 0 <= i < |gs| ==> r[i] == gs[i].date
  {
    seq(|gs|, i requires 0 <= i < |gs| => gs[i].date)
  }

  /** The label of every task, in order. */
  function LabelsOf(s: seq<Task>, labelOf: Task -> Label): (r: seq<Label>)
    ensures |r| == |s|
    ensures forall i :: 0 <= i < |s| ==> r[i] == labelOf(s[i])
  {
    seq(|s|, i requires 0 <= i < |s| => labelOf(s[i]))
  }

  /** The tasks of `s` labelled `l`, in their order in `s`: empty exactly when
      no task carries `l`. */
  function WithLabel(s: seq<Task>, labelOf: Task -> Label, l: Label): (r: seq<Task>)
    ensures forall i :: 0 <= i < |r| ==> labelOf(r[i]) == l
    ensures r == [] <==> l !in LabelsOf(s, labelOf)
    decreases |s|
  {
    if s == [] then []
    else
      var p, t := s[..|s| - 1], s[|s| - 1];
      assert LabelsOf(s, labelOf) == LabelsOf(p, labelOf) + [labelOf(t)];
      WithLabel(p, labelOf, l) + (if labelOf(t) == l then [t] else [])
  }

  /** One step of the pass: push `t` onto the group headed `l`, opening that
      group at the end when there is none yet. */
  function AddTask(gs: seq<TaskGroup>, l: Label, t: Task): seq<TaskGroup>
  {
    var i := IndexOf(Headings(gs), l);
    if i < 0 then gs + [TaskGroup(l, [t])]
    else gs[i := TaskGroup(l, gs[i].tasks + [t])]
  }

  /** Opening an empty group for a new heading and then pushing onto it is
      the same step as `AddTask`. */
  lemma OpenThenPush(gs: seq<TaskGroup>, l: Label, t: Task)
    requires IndexOf(Headings(gs), l) < 0
    ensures var widened := gs + [TaskGroup(l, [])];
            widened[|gs| := TaskGroup(l, widened[|gs|].tasks + [t])] == AddTask(gs, l, t)
  {
    var widened := gs + [TaskGroup(l, [])];
    assert widened[|gs|].tasks + [t] == [t];
    assert widened[|gs| := TaskGroup(l, [t])] == gs + [TaskGroup(l, [t])];
  }

  /** One step of a grouping pass: look the heading up, open an empty group
      for it when it is new, and push the task onto that group. */
  method Push(gs: seq<TaskGroup>, l: Label, t: Task) returns (r: seq<TaskGroup>)
    ensures r == AddTask(gs, l, t)
  {
    r := gs;
    var k := IndexOf(Headings(r), l);
    if k < 0 {
      r := r + [TaskGroup(l, [])];
      k := |r| - 1;
      OpenThenPush(gs, l, t);
    }
    r := r[k := TaskGroup(l, r[k].tasks + [t])];
  }

  /** The groups the pass builds from `s`, one task at a time. */
  function GroupBy(s: seq<Task>, labelOf: Task -> Label): (gs: seq<TaskGroup>)
    decreases |s|
  {
    if s == [] then []
    else AddTask(GroupBy(s[..|s| - 1], labelOf), labelOf(s[|s| - 1]), s[|s| - 1])
  }

  /** The pass, one task further. */
  lemma GroupByStep(p: seq<Task>, t: Task, labelOf: Task -> Label)
    ensures GroupBy(p + [t], labelOf) == AddTask(GroupBy(p, labelOf), labelOf(t), t)
  {
    assert (p + [t])[..|p|] == p;
  }

  lemma LabelsOfSnoc(p: seq<Task>, t: Task, labelOf: Task -> Label)
    ensures LabelsOf(p + [t], labelOf) == LabelsOf(p, labelOf) + [labelOf(t)]
  {
  }

  lemma WithLabelSnoc(p: seq<Task>, t: Task, labelOf: Task -> Label, l: Label)
    ensures WithLabel(p + [t], labelOf, l) == WithLabel(p, labelOf, l) + (if labelOf(t) == l then [t] else [])
  {
    assert (p + [t])[..|p|] == p;
  }

  lemma DedupSnoc(ls: seq<Label>, l: Label)
    ensures Dedup(ls + [l]) == if l in Dedup(ls) then Dedup(ls) else Dedup(ls) + [l]
  {
    assert (ls + [l])[..|ls|] == ls;
  }

  /** A step opens a heading only when it is new. */
  lemma AddTaskHeadings(gs: seq<TaskGroup>, l: Label, t: Task)
    ensures Headings(AddTask(gs, l, t)) == if l in Headings(gs) then Headings(gs) else Headings(gs) + [l]
  {
    var i := IndexOf(Headings(gs), l);
    if i < 0 {
      assert Headings(gs + [TaskGroup(l, [t])]) == Headings(gs) + [l];
    } else {
      assert Headings(gs[i := TaskGroup(l, gs[i].tasks + [t])]) == Headings(gs);
    }
  }

  /** The headings are the labels of the tasks in first-seen order, each once. */
  lemma {:induction false} GroupByHeadings(s: seq<Task>, labelOf: Task -> Label)
    ensures Headings(GroupBy(s, labelOf)) == Dedup(LabelsOf(s, labelOf))
    decreases |s|
  {
    if s != [] {
      var p, t := s[..|s| - 1], s[|s| - 1];
      assert s == p + [t];
      GroupByHeadings(p, labelOf);
      GroupByStep(p, t, labelOf);
      LabelsOfSnoc(p, t, labelOf);
      DedupSnoc(LabelsOf(p, labelOf), labelOf(t));
      AddTaskHeadings(GroupBy(p, labelOf), labelOf(t), t);
    }
  }

  /** Every group holds exactly the tasks of `s` labelled with its heading,
      in their order in `s`, and is not empty. */
  predicate HoldsByLabel(gs: seq<TaskGroup>, s: seq<Task>, labelOf: Task -> Label)
  {
    forall i :: 0 <= i < |gs| ==> gs[i].tasks == WithLabel(s, labelOf, gs[i].date) && gs[i].tasks != []
  }

  /** A step keeps every group holding exactly the tasks with its label. */
  lemma AddTaskContents(gs: seq<TaskGroup>, p: seq<Task>, t: Task, labelOf: Task -> Label)
    requires HoldsByLabel(gs, p, labelOf)
    requires Headings(gs) == Dedup(LabelsOf(p, labelOf))
    ensures HoldsByLabel(AddTask(gs, labelOf(t), t), p + [t], labelOf)
  {
    var l := labelOf(t);
    var r := AddTask(gs, l, t);
    var i := IndexOf(Headings(gs), l);
    forall j | 0 <= j < |r|
      ensures r[j].tasks == WithLabel(p + [t], labelOf, r[j].date) && r[j].tasks != []
    {
      WithLabelSnoc(p, t, labelOf, r[j].date);
      if i < 0 && j == |gs| {
        assert l !in LabelsOf(p, labelOf);
      } else if j != i {
        assert r[j] == gs[j];
        assert Headings(gs)[j] != l;
      }
    }
  }

  /** The group headed `l` holds exactly the tasks labelled `l`, in their order
      in `s`, and is never empty. */
  lemma {:induction false} GroupByContents(s: seq<Task>, labelOf: Task -> Label)
    ensures HoldsByLabel(GroupBy(s, labelOf), s, labelOf)
    decreases |s|
  {
    if s != [] {
      var p, t := s[..|s| - 1], s[|s| - 1];
      assert s == p + [t];
      GroupByContents(p, labelOf);
      GroupByHeadings(p, labelOf);
      GroupByStep(p, t, labelOf);
      AddTaskContents(GroupBy(p, labelOf), p, t, labelOf);
    }
  }

  /** All tasks of the groups, group after group (`flatMap` over the entries). */
  function Flatten(gs: seq<TaskGroup>): seq<Task>
    decreases |gs|
  {
    if gs == [] then [] else Flatten(gs[..|gs| - 1]) + gs[|gs| - 1].tasks
  }

  lemma FlattenSnoc(gs: seq<TaskGroup>, g: TaskGroup)
    ensures Flatten(gs + [g]) == Flatten(gs) + g.tasks
  {
    assert (gs + [g])[..|gs|] == gs;
  }

  lemma {:induction false} FlattenAppend(a: seq<TaskGroup>, b: seq<TaskGroup>)
    ensures Flatten(a + b) == Flatten(a) + Flatten(b)
    decreases |b|
  {
    if b != [] {
      var b', g := b[..|b| - 1], b[|b| - 1];
      assert a + b == (a + b') + [g];
      FlattenSnoc(a + b', g);
      FlattenAppend(a, b');
      FlattenSnoc(b', g);
      assert b == b' + [g];
    } else {
      assert a + b == a;
    }
  }

  /** Pushing a task onto one group adds just that task to the flattening. */
  lemma FlattenPush(gs: seq<TaskGroup>, i: int, t: Task)
    requires 0 <= i < |gs|
    ensures multiset(Flatten(gs[i := TaskGroup(gs[i].date, gs[i].tasks + [t])]))
            == multiset(Flatten(gs)) + multiset{t}
  {
    var g := TaskGroup(gs[i].date, gs[i].tasks + [t]);
    var front, back := gs[..i], gs[i + 1..];
    assert gs == front + [gs[i]] + back;
    assert gs[i := g] == front + [g] + back;
    FlattenAppend(front + [gs[i]], back);
    FlattenSnoc(front, gs[i]);
    FlattenAppend(front + [g], back);
    FlattenSnoc(front, g);
  }

  /** Grouping loses no task and invents none. */
  lemma {:induction false} GroupByPermutes(s: seq<Task>, labelOf: Task -> Label)
    ensures multiset(Flatten(GroupBy(s, labelOf))) == multiset(s)
    decreases |s|
  {
    if s != [] {
      var p, t := s[..|s| - 1], s[|s| - 1];
      assert s == p + [t];
      GroupByPermutes(p, labelOf);
      GroupByStep(p, t, labelOf);
      var gs' := GroupBy(p, labelOf);
      var l := labelOf(t);
      var i := IndexOf(Headings(gs'), l);
      if i < 0 {
        FlattenSnoc(gs', TaskGroup(l, [t]));
      } else {
        assert gs'[i].date == l;
        FlattenPush(gs', i, t);
      }
    }
  }

  /** Tasks with the same label stand next to each other. */
  predicate Contiguous(s: seq<Task>, labelOf: Task -> Label)
  {
    forall i, j, k :: 0 <= i < j < k < |s| && labelOf(s[i]) == labelOf(s[k]) ==> labelOf(s[j]) == labelOf(s[i])
  }

  /** In a contiguous sequence, a label seen before reappears only right after itself. */
  lemma ContiguousRepeat(p: seq<Task>, t: Task, labelOf: Task -> Label)
    requires Contiguous(p + [t], labelOf)
    requires labelOf(t) in LabelsOf(p, labelOf)
    ensures p != [] && labelOf(t) == labelOf(p[|p| - 1])
  {
    var s := p + [t];
    var j :| 0 <= j < |p| && LabelsOf(p, labelOf)[j] == labelOf(t);
    assert labelOf(s[j]) == labelOf(s[|s| - 1]);
    if j < |p| - 1 {
      assert labelOf(s[|p| - 1]) == labelOf(s[j]);
    }
  }

  /** With distinct headings, a task labelled like the last group is pushed
      onto that group, so it lands at the end of the flattening. */
  lemma AddTaskLast(gs: seq<TaskGroup>, l: Label, t: Task)
    requires |gs| > 0 && gs[|gs| - 1].date == l
    requires forall i, j :: 0 <= i < j < |gs| ==> Headings(gs)[i] != Headings(gs)[j]
    ensures Flatten(AddTask(gs, l, t)) == Flatten(gs) + [t]
    ensures |AddTask(gs, l, t)| == |gs| && AddTask(gs, l, t)[|gs| - 1].date == l
  {
    var n := |gs|;
    assert IndexOf(Headings(gs), l) == n - 1;
    var g := TaskGroup(l, gs[n - 1].tasks + [t]);
    assert AddTask(gs, l, t) == gs[n - 1 := g];
    assert gs[n - 1 := g][..n - 1] == gs[..n - 1];
  }

  /** The step of `GroupContiguous` for a task whose label is new. */
  lemma ContiguousOpen(p: seq<Task>, t: Task, labelOf: Task -> Label)
    requires IndexOf(Headings(GroupBy(p, labelOf)), labelOf(t)) < 0
    requires Flatten(GroupBy(p, labelOf)) == p
    ensures Flatten(GroupBy(p + [t], labelOf)) == p + [t]
    ensures |GroupBy(p + [t], labelOf)| > 0
    ensures GroupBy(p + [t], labelOf)[|GroupBy(p + [t], labelOf)| - 1].date == labelOf(t)
  {
    GroupByStep(p, t, labelOf);
    FlattenSnoc(GroupBy(p, labelOf), TaskGroup(labelOf(t), [t]));
  }

  /** In a contiguous sequence, a task whose label already heads a group
      carries the label of the task just before it. */
  lemma SeenIsLast(p: seq<Task>, t: Task, labelOf: Task -> Label)
    requires Contiguous(p + [t], labelOf)
    requires IndexOf(Headings(GroupBy(p, labelOf)), labelOf(t)) >= 0
    ensures p != [] && labelOf(t) == labelOf(p[|p| - 1])
  {
    GroupByHeadings(p, labelOf);
    assert labelOf(t) in Headings(GroupBy(p, labelOf));
    ContiguousRepeat(p, t, labelOf);
  }

  lemma ContiguousPrefix(p: seq<Task>, t: Task, labelOf: Task -> Label)
    requires Contiguous(p + [t], labelOf)
    ensures Contiguous(p, labelOf)
  {
    forall i, j, k | 0 <= i < j < k < |p| && labelOf(p[i]) == labelOf(p[k])
      ensures labelOf(p[j]) == labelOf(p[i])
    {
      assert p[i] == (p + [t])[i] && p[j] == (p + [t])[j] && p[k] == (p + [t])[k];
    }
  }

  /** The step of `GroupContiguous` for a task labelled like the one before
      it. */
  lemma ContiguousPush(p: seq<Task>, t: Task, labelOf: Task -> Label)
    requires p != [] && labelOf(t) == labelOf(p[|p| - 1])
    requires Flatten(GroupBy(p, labelOf)) == p
    requires |GroupBy(p, labelOf)| > 0
    requires GroupBy(p, labelOf)[|GroupBy(p, labelOf)| - 1].date == labelOf(p[|p| - 1])
    ensures Flatten(GroupBy(p + [t], labelOf)) == p + [t]
    ensures |GroupBy(p + [t], labelOf)| > 0
    ensures GroupBy(p + [t], labelOf)[|GroupBy(p + [t], labelOf)| - 1].date == labelOf(t)
  {
    GroupByHeadings(p, labelOf);
    AddTaskLast(GroupBy(p, labelOf), labelOf(t), t);
    GroupByStep(p, t, labelOf);
  }

  /** When equal labels are adjacent (as they are once the tasks are sorted by
      date), the groups read in order are the tasks in their original order,
      and the last group is the last task's. */
  lemma {:induction false} GroupContiguous(s: seq<Task>, labelOf: Task -> Label)
    requires Contiguous(s, labelOf)
    ensures Flatten(GroupBy(s, labelOf)) == s
    ensures s != [] ==> |GroupBy(s, labelOf)| > 0
    ensures s != [] ==> GroupBy(s, labelOf)[|GroupBy(s, labelOf)| - 1].date == labelOf(s[|s| - 1])
    decreases |s|
  {
    if s != [] {
      var p, t := s[..|s| - 1], s[|s| - 1];
      assert s == p + [t];
      ContiguousPrefix(p, t, labelOf);
      GroupContiguous(p, labelOf);
      if IndexOf(Headings(GroupBy(p, labelOf)), labelOf(t)) < 0 {
        ContiguousOpen(p, t, labelOf);
      } else {
        SeenIsLast(p, t, labelOf);
        ContiguousPush(p, t, labelOf);
      }
    }
  }
}
