/** The tasks of a control message and their removal by type (primitives/ingest_control_message.py). */
module ControlMessage {
  import opened Sequences

  datatype Task = Task(kind: string, id: string, properties: string)

  /** The tasks that share an id, in the order they were added. */
  datatype Group = Group(id: string, tasks: seq<Task>)

  // --- the message as a value ------------------------------------------------------------------------------

  /** All tasks, in the order in which get_tasks yields them. */
  function Tasks(groups: seq<Group>): seq<Task> {
    if groups == [] then [] else groups[0].tasks + Tasks(groups[1..])
  }

  function AddTo(groups: seq<Group>, t: Task): seq<Group> {
    if groups == [] then [Group(t.id, [t])]
    else if groups[0].id == t.id then [groups[0].(tasks := groups[0].tasks + [t])] + groups[1..]
    else [groups[0]] + AddTo(groups[1..], t)
  }

  /** The group without its first k tasks; no group at all when none are left. */
  function Cut(g: Group, k: nat): seq<Group>
    requires k <= |g.tasks|
  {
    if k < |g.tasks| then [g.(tasks := g.tasks[k..])] else []
  }

  /** The first task with this id, and the message without it. */
  function Pop(groups: seq<Group>, id: string): (r: (Option<Task>, seq<Group>)) {
    if groups == [] then (None, [])
    else if groups[0].id == id && groups[0].tasks != [] then (Some(groups[0].tasks[0]), Cut(groups[0], 1) + groups[1..])
    else var (t, rest) := Pop(groups[1..], id); (t, [groups[0]] + rest)
  }

  /** Removing by one id after another; None when one of them is missing. */
  function PopAll(groups: seq<Group>, ids: seq<string>): (Option<seq<Task>>, seq<Group>)
    decreases |ids|
  {
    if ids == [] then (Some([]), groups)
    else
      var (t, rest) := Pop(groups, ids[0]);
      if t.None? then (None, groups)
      else var (more, left) := PopAll(rest, ids[1..]); (if more.None? then None else Some([t.value] + more.value), left)
  }

  predicate HasId(groups: seq<Group>, id: string) {
    groups != [] && (groups[0].id == id || HasId(groups[1..], id))
  }

  /** One group for an id, with at least one task, all of that id. */
  ghost predicate WellFormed(groups: seq<Group>) {
    groups == []
    || (groups[0].tasks != [] && OfOneId(groups[0]) && !HasId(groups[1..], groups[0].id) && WellFormed(groups[1..]))
  }

  ghost predicate OfOneId(g: Group) {
    forall j :: 0 <= j < |g.tasks| ==> g.tasks[j].id == g.id
  }

  // --- what removal by type removes --------------------------------------------------------------------------

  function Matching(tasks: seq<Task>, kind: string): seq<Task> {
    if tasks == [] then [] else (if tasks[0].kind == kind then [tasks[0]] else []) + Matching(tasks[1..], kind)
  }

  function Others(tasks: seq<Task>, kind: string): seq<Task> {
    if tasks == [] then [] else (if tasks[0].kind != kind then [tasks[0]] else []) + Others(tasks[1..], kind)
  }

  function Count(g: Group, kind: string): (k: nat)
    ensures k <= |g.tasks|
  {
    MatchingBounded(g.tasks, kind);
    |Matching(g.tasks, kind)|
  }

  lemma {:induction false} MatchingBounded(tasks: seq<Task>, kind: string)
    ensures |Matching(tasks, kind)| <= |tasks|
  {
    if tasks != [] { MatchingBounded(tasks[1..], kind); }
  }

  /** As many tasks as match, but the first of each id. */
  function Heads(groups: seq<Group>, kind: string): seq<Task> {
    if groups == [] then [] else groups[0].tasks[..Count(groups[0], kind)] + Heads(groups[1..], kind)
  }

  function Tails(groups: seq<Group>, kind: string): seq<Group> {
    if groups == [] then [] else Cut(groups[0], Count(groups[0], kind)) + Tails(groups[1..], kind)
  }

  function Ids(tasks: seq<Task>): seq<string> {
    seq(|tasks|, i requires 0 <= i < |tasks| => tasks[i].id)
  }

  lemma {:induction false} MatchingConcat(a: seq<Task>, b: seq<Task>, kind: string)
    ensures Matching(a + b, kind) == Matching(a, kind) + Matching(b, kind)
  {
    if a == [] {
      assert a + b == b;
    } else {
      assert (a + b)[1..] == a[1..] + b && (a + b)[0] == a[0];
      MatchingHead(a + b, kind);
      MatchingHead(a, kind);
      hide Matching;
      MatchingConcat(a[1..], b, kind);
    }
  }

  lemma {:induction false} OthersConcat(a: seq<Task>, b: seq<Task>, kind: string)
    ensures Others(a + b, kind) == Others(a, kind) + Others(b, kind)
  {
    if a == [] {
      assert a + b == b;
    } else {
      assert (a + b)[1..] == a[1..] + b && (a + b)[0] == a[0];
      OthersHead(a + b, kind);
      OthersHead(a, kind);
      hide Others;
      OthersConcat(a[1..], b, kind);
    }
  }

  lemma {:induction false} MatchingIn(tasks: seq<Task>, kind: string)
    ensures forall t :: t in Matching(tasks, kind) <==> t in tasks && t.kind == kind
  {
    if tasks != [] { MatchingIn(tasks[1..], kind); }
  }

  lemma {:induction false} TasksHaveGroups(groups: seq<Group>, t: Task)
    requires WellFormed(groups) && t in Tasks(groups)
    ensures HasId(groups, t.id)
  {
    if t in groups[0].tasks {
      assert OfOneId(groups[0]);
    } else {
      TasksHaveGroups(groups[1..], t);
    }
  }

  /** Popping k times from the first group. */
  lemma {:induction false} PopHeads(g: Group, rest: seq<Group>, k: nat, ids: seq<string>, more: seq<string>)
    requires k <= |g.tasks| && |ids| == k && forall j :: 0 <= j < k ==> ids[j] == g.id
    ensures var (t, left) := PopAll(Cut(g, k) + rest, more);
            PopAll(Cut(g, 0) + rest, ids + more) == (if t.None? then None else Some(g.tasks[..k] + t.value), left)
    decreases k
  {
    if k == 0 {
      assert ids + more == more;
      var (t, left) := PopAll(Cut(g, 0) + rest, more);
      if t.Some? { assert g.tasks[..0] + t.value == t.value; }
    } else {
      var next := g.(tasks := g.tasks[1..]);
      var all := ids + more;
      assert all[1..] == ids[1..] + more && all[0] == g.id;
      var whole := Cut(g, 0) + rest;
      assert whole[0] == g && whole[1..] == rest by { assert Cut(g, 0) == [g]; }
      assert Pop(whole, g.id) == (Some(g.tasks[0]), Cut(next, 0) + rest);
      assert Cut(next, k - 1) == Cut(g, k);
      PopHeads(next, rest, k - 1, ids[1..], more);
      var (t, left) := PopAll(Cut(g, k) + rest, more);
      if t.Some? { assert [g.tasks[0]] + (next.tasks[..k - 1] + t.value) == g.tasks[..k] + t.value; }
    }
  }

  /** Popping other ids leaves the first group alone. */
  lemma {:induction false} PopSkips(first: seq<Group>, rest: seq<Group>, ids: seq<string>)
    requires |first| <= 1 && forall j :: 0 <= j < |ids| ==> first != [] ==> ids[j] != first[0].id
    ensures PopAll(first + rest, ids) == (var (t, left) := PopAll(rest, ids); (t, first + left))
    decreases |ids|
  {
    if ids != [] {
      var (t, left) := Pop(rest, ids[0]);
      if first != [] {
        assert (first + rest)[1..] == rest && first == [first[0]];
        assert Pop(first + rest, ids[0]) == (t, first + left);
      } else {
        assert first + rest == rest && first + left == left;
      }
      if t.Some? { PopSkips(first, left, ids[1..]); }
    }
  }

  lemma {:induction false} RemovalSplitsGroups(groups: seq<Group>, kind: string)
    requires WellFormed(groups)
    ensures PopAll(groups, Ids(Matching(Tasks(groups), kind))) == (Some(Heads(groups, kind)), Tails(groups, kind))
  {
    hide Pop, Matching, Count;
    if groups == [] {
      NothingMatches(kind);
    } else {
      var g, rest := groups[0], groups[1..];
      var here, later := Matching(g.tasks, kind), Matching(Tasks(rest), kind);
      var k := Count(g, kind);
      CountIs(g, kind);
      MatchingConcat(g.tasks, Tasks(rest), kind);
      assert Ids(here + later) == Ids(here) + Ids(later);
      MatchingIn(g.tasks, kind);
      assert OfOneId(g);
      forall j | 0 <= j < k
        ensures Ids(here)[j] == g.id
      {
        assert here[j] in here;
      }
      assert groups == Cut(g, 0) + rest;
      PopHeads(g, rest, k, Ids(here), Ids(later));
      LaterIds(groups, kind);
      PopSkips(Cut(g, k), rest, Ids(later));
      RemovalSplitsGroups(rest, kind);
    }
  }

  lemma NothingMatches(kind: string)
    ensures Matching([], kind) == []
  {
  }

  lemma CountIs(g: Group, kind: string)
    ensures Count(g, kind) == |Matching(g.tasks, kind)|
  {
  }

  lemma LaterIds(groups: seq<Group>, kind: string)
    requires WellFormed(groups) && groups != []
    ensures forall j :: 0 <= j < |Matching(Tasks(groups[1..]), kind)| ==>
      Ids(Matching(Tasks(groups[1..]), kind))[j] != groups[0].id
  {
    var later := Matching(Tasks(groups[1..]), kind);
    MatchingIn(Tasks(groups[1..]), kind);
    forall j | 0 <= j < |later|
      ensures Ids(later)[j] != groups[0].id
    {
      assert later[j] in later;
      TasksHaveGroups(groups[1..], later[j]);
    }
  }

  /** Nothing is lost: removed and remaining tasks are the original ones, and as many are removed as match. */
  lemma {:induction false} RemovalConserves(groups: seq<Group>, kind: string)
    ensures multiset(Heads(groups, kind)) + multiset(Tasks(Tails(groups, kind))) == multiset(Tasks(groups))
    ensures |Heads(groups, kind)| == |Matching(Tasks(groups), kind)|
  {
    if groups != [] {
      var g, rest := groups[0], groups[1..];
      var k := Count(g, kind);
      RemovalConserves(rest, kind);
      MatchingConcat(g.tasks, Tasks(rest), kind);
      TasksConcat(Cut(g, k), Tails(rest, kind));
      CutTasks(g, k);
      assert g.tasks == g.tasks[..k] + g.tasks[k..];
    }
  }

  lemma {:induction false} TasksConcat(a: seq<Group>, b: seq<Group>)
    ensures Tasks(a + b) == Tasks(a) + Tasks(b)
  {
    if a == [] {
      assert a + b == b;
    } else {
      assert (a + b)[1..] == a[1..] + b;
      TasksConcat(a[1..], b);
    }
  }

  lemma CutTasks(g: Group, k: nat)
    requires k <= |g.tasks|
    ensures Tasks(Cut(g, k)) == g.tasks[k..]
  {
    var c := Cut(g, k);
    if c != [] { assert c[1..] == []; }
  }

  /** Within the id, the tasks of this type come before all others. */
  ghost predicate KindFirst(g: Group, kind: string) {
    forall i, j :: 0 <= i < j < |g.tasks| && g.tasks[j].kind == kind ==> g.tasks[i].kind == kind
  }

  ghost predicate AllKindFirst(groups: seq<Group>, kind: string) {
    forall i :: 0 <= i < |groups| ==> KindFirst(groups[i], kind)
  }

  lemma {:induction false} PrefixMatches(tasks: seq<Task>, kind: string)
    ensures var matching := Matching(tasks, kind);
            && |matching| <= |tasks|
            && (tasks[..|matching|] == matching <==> KindFirst(Group("", tasks), kind))
            && (tasks[..|matching|] == matching ==> tasks[|matching|..] == Others(tasks, kind))
  {
    hide KindFirst;
    if tasks == [] {
      NothingFirst(kind);
    } else {
      var rest := tasks[1..];
      var later := Matching(rest, kind);
      PrefixMatches(rest, kind);
      KindFirstStep(tasks, kind);
      MatchingHead(tasks, kind);
      OthersHead(tasks, kind);
      hide Matching, Others;
      MatchingIn(rest, kind);
      if tasks[0].kind == kind {
        PrefixStep(tasks[0], rest, later);
        assert tasks == [tasks[0]] + rest;
      } else if later == [] {
        NoneMatch(rest, kind);
        assert tasks[..0] == [] && tasks[0..] == [tasks[0]] + rest;
      } else {
        assert later[0] in later && tasks[..|later|][0] == tasks[0];
      }
    }
  }

  lemma PrefixStep(t: Task, rest: seq<Task>, later: seq<Task>)
    requires |later| <= |rest|
    ensures ([t] + rest)[..|later| + 1] == [t] + later <==> rest[..|later|] == later
    ensures ([t] + rest)[|later| + 1..] == rest[|later|..]
  {
    assert ([t] + rest)[..|later| + 1] == [t] + rest[..|later|];
    assert ([t] + later)[1..] == later && ([t] + rest[..|later|])[1..] == rest[..|later|];
  }

  lemma OthersHead(tasks: seq<Task>, kind: string)
    requires tasks != []
    ensures Others(tasks, kind) == (if tasks[0].kind != kind then [tasks[0]] else []) + Others(tasks[1..], kind)
  {
  }

  lemma NothingFirst(kind: string)
    ensures KindFirst(Group("", []), kind)
  {
  }

  lemma KindFirstStep(tasks: seq<Task>, kind: string)
    requires tasks != []
    ensures KindFirst(Group("", tasks), kind)
        <==> KindFirst(Group("", tasks[1..]), kind)
             && (tasks[0].kind == kind || forall t :: t in tasks[1..] ==> t.kind != kind)
  {
    var rest := tasks[1..];
    assert forall j :: 0 <= j < |rest| ==> rest[j] == tasks[j + 1];
    if KindFirst(Group("", rest), kind) && (tasks[0].kind == kind || forall t :: t in rest ==> t.kind != kind) {
      forall i, j | 0 <= i < j < |tasks| && tasks[j].kind == kind
        ensures tasks[i].kind == kind
      {
        assert tasks[j] == rest[j - 1] && rest[j - 1] in rest;
        if i > 0 { assert tasks[i] == rest[i - 1]; }
      }
    }
    if KindFirst(Group("", tasks), kind) {
      forall i, j | 0 <= i < j < |rest| && rest[j].kind == kind
        ensures rest[i].kind == kind
      {
        assert tasks[j + 1].kind == kind;
      }
    }
  }

  lemma {:induction false} NoneMatch(tasks: seq<Task>, kind: string)
    requires Matching(tasks, kind) == []
    ensures Others(tasks, kind) == tasks
  {
    if tasks != [] { NoneMatch(tasks[1..], kind); }
  }

  /**
   Exactly the tasks of the type are removed, in get_tasks order, if and only if in every id they come first; then
   the other tasks remain in their order.
   */
  lemma {:induction false} RemovesExactlyTheKind(groups: seq<Group>, kind: string)
    ensures Heads(groups, kind) == Matching(Tasks(groups), kind) <==> AllKindFirst(groups, kind)
    ensures Heads(groups, kind) == Matching(Tasks(groups), kind) ==>
      Tasks(Tails(groups, kind)) == Others(Tasks(groups), kind)
  {
    if groups == [] {
      NothingMatches(kind);
      NothingElse(kind);
      assert AllKindFirst(groups, kind);
    } else {
      hide Matching, Others, KindFirst, AllKindFirst, Cut, Count;
      var g, rest := groups[0], groups[1..];
      var k := Count(g, kind);
      CountIs(g, kind);
      PrefixMatches(g.tasks, kind);
      RemovesExactlyTheKind(rest, kind);
      MatchingConcat(g.tasks, Tasks(rest), kind);
      OthersConcat(g.tasks, Tasks(rest), kind);
      TasksConcat(Cut(g, k), Tails(rest, kind));
      CutTasks(g, k);
      SplitEqual(g.tasks[..k], Heads(rest, kind), Matching(g.tasks, kind), Matching(Tasks(rest), kind));
      KindFirstAnyId(g, kind);
      AllKindFirstStep(groups, kind);
    }
  }

  lemma NothingElse(kind: string)
    ensures Others([], kind) == []
  {
  }

  lemma AllKindFirstStep(groups: seq<Group>, kind: string)
    requires groups != []
    ensures AllKindFirst(groups, kind) <==> KindFirst(groups[0], kind) && AllKindFirst(groups[1..], kind)
  {
    hide KindFirst;
    assert groups == [groups[0]] + groups[1..];
    assert forall i :: 0 <= i < |groups| - 1 ==> groups[1..][i] == groups[i + 1];
  }

  lemma KindFirstAnyId(g: Group, kind: string)
    ensures KindFirst(g, kind) <==> KindFirst(Group("", g.tasks), kind)
  {
  }

  lemma {:induction false} AddKeeps(groups: seq<Group>, t: Task)
    requires WellFormed(groups)
    ensures WellFormed(AddTo(groups, t))
    ensures forall id :: HasId(AddTo(groups, t), id) <==> HasId(groups, id) || id == t.id
  {
    if groups == [] {
      assert AddTo(groups, t)[1..] == [];
    } else if groups[0].id == t.id {
      assert OfOneId(groups[0]) && AddTo(groups, t)[1..] == groups[1..];
    } else {
      AddKeeps(groups[1..], t);
      assert AddTo(groups, t)[1..] == AddTo(groups[1..], t);
    }
  }

  /** Adding a task changes the tasks by that task. */
  lemma {:induction false} AddConserves(groups: seq<Group>, t: Task)
    ensures multiset(Tasks(AddTo(groups, t))) == multiset(Tasks(groups)) + multiset{t}
  {
    if groups == [] {
      assert AddTo(groups, t)[1..] == [];
    } else if groups[0].id == t.id {
      assert AddTo(groups, t)[1..] == groups[1..];
    } else {
      AddConserves(groups[1..], t);
      assert AddTo(groups, t)[1..] == AddTo(groups[1..], t);
    }
  }

  lemma {:induction false} PopKeeps(groups: seq<Group>, id: string)
    requires WellFormed(groups)
    ensures WellFormed(Pop(groups, id).1)
    ensures forall x :: HasId(Pop(groups, id).1, x) ==> HasId(groups, x)
  {
    if groups != [] {
      var g, rest := groups[0], groups[1..];
      if g.id == id {
        assert OfOneId(g);
        if |g.tasks| == 1 {
          assert Cut(g, 1) + rest == rest;
        } else {
          assert (Cut(g, 1) + rest)[1..] == rest;
        }
      } else {
        PopKeeps(rest, id);
        assert Pop(groups, id).1[1..] == Pop(rest, id).1;
      }
    }
  }

  /** remove_task is undone by counting: the task it returns is the only one that goes. */
  lemma {:induction false} PopConserves(groups: seq<Group>, id: string)
    ensures var (t, left) := Pop(groups, id);
            multiset(Tasks(groups)) == multiset(Tasks(left)) + (if t.Some? then multiset{t.value} else multiset{})
  {
    if groups != [] {
      var g, rest := groups[0], groups[1..];
      if g.id == id && g.tasks != [] {
        TasksConcat(Cut(g, 1), rest);
        CutTasks(g, 1);
        assert g.tasks == [g.tasks[0]] + g.tasks[1..];
      } else {
        PopConserves(rest, id);
        assert Pop(groups, id).1[1..] == Pop(rest, id).1;
      }
    }
  }

  // --- first in, first out -------------------------------------------------------------------------------------

  /** The tasks with this id, in order. */
  function OfId(tasks: seq<Task>, id: string): seq<Task> {
    if tasks == [] then [] else (if tasks[0].id == id then [tasks[0]] else []) + OfId(tasks[1..], id)
  }

  function Names(groups: seq<Group>): seq<string> {
    seq(|groups|, i requires 0 <= i < |groups| => groups[i].id)
  }

  lemma {:induction false} OfIdConcat(a: seq<Task>, b: seq<Task>, id: string)
    ensures OfId(a + b, id) == OfId(a, id) + OfId(b, id)
  {
    if a == [] {
      assert a + b == b;
      NoTaskOfId(id);
    } else {
      hide OfId;
      assert a == [a[0]] + a[1..] && a + b == [a[0]] + (a[1..] + b);
      OfIdFirst(a[0], a[1..] + b, id);
      OfIdFirst(a[0], a[1..], id);
      OfIdConcat(a[1..], b, id);
    }
  }

  lemma NoTaskOfId(id: string)
    ensures OfId([], id) == []
  {
  }

  lemma OfIdFirst(t: Task, rest: seq<Task>, id: string)
    ensures OfId([t] + rest, id) == (if t.id == id then [t] else []) + OfId(rest, id)
  {
    assert ([t] + rest)[1..] == rest;
  }

  lemma {:induction false} OfOneGroup(tasks: seq<Task>, own: string, id: string)
    requires forall j :: 0 <= j < |tasks| ==> tasks[j].id == own
    ensures OfId(tasks, id) == if own == id then tasks else []
  {
    if tasks != [] {
      OfOneGroup(tasks[1..], own, id);
      assert tasks == [tasks[0]] + tasks[1..];
    }
  }

  lemma {:induction false} NoneOfId(groups: seq<Group>, id: string)
    requires WellFormed(groups) && !HasId(groups, id)
    ensures OfId(Tasks(groups), id) == []
  {
    if groups != [] {
      assert OfOneId(groups[0]);
      OfOneGroup(groups[0].tasks, groups[0].id, id);
      NoneOfId(groups[1..], id);
      OfIdConcat(groups[0].tasks, Tasks(groups[1..]), id);
    }
  }

  /** A task is added after those of its id, a new id after the others, and nothing else moves. */
  lemma {:induction false} AddIsLast(groups: seq<Group>, t: Task, id: string)
    requires WellFormed(groups)
    ensures OfId(Tasks(AddTo(groups, t)), id) == OfId(Tasks(groups), id) + if t.id == id then [t] else []
    ensures Names(AddTo(groups, t)) == Names(groups) + if HasId(groups, t.id) then [] else [t.id]
  {
    hide OfId, Tasks, Names;
    if groups == [] {
      OfIdGroups(Group(t.id, [t]), [], id);
      NothingOfId(id);
      NamesFirst(Group(t.id, [t]), []);
      assert [Group(t.id, [t])] + [] == [Group(t.id, [t])];
    } else {
      var g, rest := groups[0], groups[1..];
      var (more, rest') := (if g.id == t.id then g.(tasks := g.tasks + [t]) else g,
                            if g.id == t.id then rest else AddTo(rest, t));
      assert groups == [g] + rest && AddTo(groups, t) == [more] + rest';
      OfIdGroups(g, rest, id);
      OfIdGroups(more, rest', id);
      NamesFirst(g, rest);
      NamesFirst(more, rest');
      if g.id == t.id { NoneOfId(rest, t.id); } else { AddIsLast(rest, t, id); }
    }
  }

  lemma OfIdGroups(g: Group, rest: seq<Group>, id: string)
    requires OfOneId(g)
    ensures OfId(Tasks([g] + rest), id) == (if g.id == id then g.tasks else []) + OfId(Tasks(rest), id)
  {
    assert ([g] + rest)[1..] == rest;
    OfOneGroup(g.tasks, g.id, id);
    OfIdConcat(g.tasks, Tasks(rest), id);
  }

  lemma NamesFirst(g: Group, rest: seq<Group>)
    ensures Names([g] + rest) == [g.id] + Names(rest) && Names([]) == []
  {
  }

  lemma NothingOfId(id: string)
    ensures OfId(Tasks([]), id) == []
  {
  }

  /** The first task of the id is taken, and nothing else moves. */
  lemma {:induction false} PopIsFirst(groups: seq<Group>, own: string, id: string)
    requires WellFormed(groups)
    ensures var (t, left) := Pop(groups, own);
            && OfId(Tasks(groups), id) == (if t.Some? && own == id then [t.value] else []) + OfId(Tasks(left), id)
            && (t.None? <==> !HasId(groups, own)) && (t.None? ==> left == groups)
  {
    hide OfId, Tasks;
    if groups == [] {
      NothingOfId(id);
    } else {
      var g, rest := groups[0], groups[1..];
      assert groups == [g] + rest;
      OfIdGroups(g, rest, id);
      if g.id == own {
        var less := g.(tasks := g.tasks[1..]);
        assert g.tasks == [g.tasks[0]] + less.tasks;
        if less.tasks == [] {
          assert Cut(g, 1) + rest == rest;
        } else {
          OfIdGroups(less, rest, id);
        }
        if own == id { NoneOfId(rest, id); }
      } else {
        PopIsFirst(rest, own, id);
        OfIdGroups(g, Pop(rest, own).1, id);
      }
    }
  }

  // --- the dictionary of lists ---------------------------------------------------------------------------------

  type Lists = map<string, seq<Task>>

  /** The dictionary as groups, in insertion order. */
  function GroupsOf(keys: seq<string>, lists: Lists): (groups: seq<Group>)
    requires forall k :: k in keys ==> k in lists
    ensures |groups| == |keys|
  {
    seq(|keys|, i requires 0 <= i < |keys| => Group(keys[i], lists[keys[i]]))
  }

  lemma GroupsStep(keys: seq<string>, lists: Lists)
    requires keys != [] && forall k :: k in keys ==> k in lists
    ensures GroupsOf(keys, lists) == [Group(keys[0], lists[keys[0]])] + GroupsOf(keys[1..], lists)
  {
  }

  /** Changing another key's list changes nothing here. */
  lemma GroupsElsewhere(keys: seq<string>, lists: Lists, other: Lists)
    requires forall k :: k in keys ==> k in lists && k in other && lists[k] == other[k]
    ensures GroupsOf(keys, lists) == GroupsOf(keys, other)
  {
  }

  lemma {:induction false} AppendInDict(keys: seq<string>, lists: Lists, t: Task)
    requires Distinct(keys) && t.id in keys && forall k :: k in keys ==> k in lists
    ensures GroupsOf(keys, lists[t.id := lists[t.id] + [t]]) == AddTo(GroupsOf(keys, lists), t)
  {
    var after := lists[t.id := lists[t.id] + [t]];
    GroupsStep(keys, lists);
    GroupsStep(keys, after);
    if keys[0] == t.id {
      GroupsElsewhere(keys[1..], lists, after);
    } else {
      AppendInDict(keys[1..], lists, t);
    }
  }

  lemma {:induction false} NewInDict(keys: seq<string>, lists: Lists, t: Task)
    requires t.id !in keys && forall k :: k in keys ==> k in lists
    ensures GroupsOf(keys + [t.id], lists[t.id := [t]]) == AddTo(GroupsOf(keys, lists), t)
  {
    var after := lists[t.id := [t]];
    GroupsStep(keys + [t.id], after);
    if keys == [] {
      assert GroupsOf([t.id], after) == [Group(t.id, [t])];
    } else {
      assert (keys + [t.id])[1..] == keys[1..] + [t.id];
      GroupsStep(keys, lists);
      NewInDict(keys[1..], lists, t);
    }
  }

  lemma {:induction false} PopInDict(keys: seq<string>, lists: Lists, id: string)
    requires Distinct(keys) && id in keys && (forall k :: k in keys ==> k in lists) && lists[id] != []
    ensures var tasks := lists[id];
            var (t, left) := Pop(GroupsOf(keys, lists), id);
            && t == Some(tasks[0])
            && (forall k :: k in RemoveFirst(keys, id) ==> k in keys && k != id)
            && left == if |tasks| > 1 then GroupsOf(keys, lists[id := tasks[1..]])
                       else GroupsOf(RemoveFirst(keys, id), lists - {id})
  {
    var tasks := lists[id];
    var after := lists[id := tasks[1..]];
    GroupsStep(keys, lists);
    GroupsStep(keys, after);
    if keys[0] == id {
      GroupsElsewhere(keys[1..], lists, after);
      GroupsElsewhere(keys[1..], lists, lists - {id});
    } else {
      PopInDict(keys[1..], lists, id);
      if |tasks| == 1 { GroupsStep(RemoveFirst(keys, id), lists - {id}); }
    }
  }

  lemma {:induction false} NotInDict(keys: seq<string>, lists: Lists, id: string)
    requires id !in keys && forall k :: k in keys ==> k in lists
    ensures Pop(GroupsOf(keys, lists), id) == (None, GroupsOf(keys, lists))
  {
    if keys != [] {
      GroupsStep(keys, lists);
      NotInDict(keys[1..], lists, id);
    }
  }

  lemma {:induction false} RemoveFirstKeeps(keys: seq<string>, id: string)
    requires Distinct(keys)
    ensures Distinct(RemoveFirst(keys, id)) && forall k :: k in RemoveFirst(keys, id) <==> k in keys && k != id
  {
    if keys != [] {
      hide Distinct, RemoveFirst;
      var first, rest := keys[0], keys[1..];
      assert keys == [first] + rest;
      DistinctFront(first, rest);
      RemoveFront(first, rest, id);
      if first != id {
        RemoveFirstKeeps(rest, id);
        DistinctFront(first, RemoveFirst(rest, id));
      }
    }
  }

  lemma DistinctFront(first: string, rest: seq<string>)
    ensures Distinct([first] + rest) <==> first !in rest && Distinct(rest)
  {
    var s := [first] + rest;
    assert forall j :: 0 <= j < |rest| ==> s[j + 1] == rest[j];
    if first !in rest && Distinct(rest) {
      forall i, j | 0 <= i < j < |s|
        ensures s[i] != s[j]
      {
        assert s[j] == rest[j - 1] && rest[j - 1] in rest;
        if i > 0 { assert s[i] == rest[i - 1]; }
      }
    }
    if Distinct(s) {
      forall j | 0 <= j < |rest|
        ensures rest[j] != first
      {
        assert s[j + 1] == rest[j] && s[0] == first;
      }
      forall i, j | 0 <= i < j < |rest|
        ensures rest[i] != rest[j]
      {
        assert s[i + 1] != s[j + 1];
      }
    }
  }

  lemma RemoveFront(first: string, rest: seq<string>, id: string)
    ensures RemoveFirst([first] + rest, id) == if first == id then rest else [first] + RemoveFirst(rest, id)
  {
    assert ([first] + rest)[1..] == rest;
  }

  class IngestControlMessage {
    var keys: seq<string>
    var lists: Lists

    ghost predicate IsDict()
      reads this
    {
      Distinct(keys) && forall k :: k in keys <==> k in lists
    }

    ghost function Groups(): seq<Group>
      requires IsDict()
      reads this
    {
      GroupsOf(keys, lists)
    }

    ghost predicate Valid()
      reads this
    {
      IsDict() && WellFormed(Groups())
    }

    constructor ()
      ensures Valid() && Groups() == []
    {
      keys, lists := [], map[];
    }

    method AddTask(t: Task)
      requires Valid()
      modifies this
      ensures Valid() && Groups() == AddTo(old(Groups()), t)
    {
      hide AddTo, WellFormed, GroupsOf, HasId;
      AddKeeps(Groups(), t);
      if t.id in lists {
        AppendInDict(keys, lists, t);
        lists := lists[t.id := lists[t.id] + [t]];
      } else {
        NewInDict(keys, lists, t);
        keys, lists := keys + [t.id], lists[t.id := [t]];
      }
    }

    method GetTasks() returns (tasks: seq<Task>)
      requires Valid()
      ensures tasks == Tasks(Groups())
    {
      hide WellFormed, Tasks;
      tasks := [];
      NoTasks();
      for n := 0 to |keys|
        invariant tasks == Tasks(Groups()[..n])
      {
        TasksConcat(Groups()[..n], [Groups()[n]]);
        OneGroup(Groups()[n]);
        assert Groups()[..n + 1] == Groups()[..n] + [Groups()[n]];
        tasks := tasks + lists[keys[n]];
      }
      assert Groups()[..|keys|] == Groups();
    }

    /** remove_task: None stands for the RuntimeError on an id without tasks. */
    method RemoveTask(id: string) returns (t: Option<Task>)
      requires Valid()
      modifies this
      ensures Valid() && (t, Groups()) == Pop(old(Groups()), id)
    {
      hide WellFormed, GroupsOf, Pop, HasId, RemoveFirst;
      PopKeeps(Groups(), id);
      if id !in lists || lists[id] == [] {
        assert id !in keys by { if id in keys { ListsNotEmpty(keys, lists, id); } }
        NotInDict(keys, lists, id);
        return None;
      }
      PopInDict(keys, lists, id);
      ghost var (keys', lists') := (keys, lists);
      t := Some(lists[id][0]);
      lists := lists[id := lists[id][1..]];
      if lists[id] == [] {
        RemoveFirstKeeps(keys, id);
        keys, lists := RemoveFirst(keys, id), lists - {id};
        assert lists == lists' - {id} && IsDict();
      } else {
        assert |lists'[id]| > 1 && lists[id] == lists'[id][1..];
      }
    }

  }

  lemma {:induction false} ListsNotEmpty(keys: seq<string>, lists: Lists, id: string)
    requires (forall k :: k in keys ==> k in lists) && WellFormed(GroupsOf(keys, lists)) && id in keys
    ensures lists[id] != []
  {
    GroupsStep(keys, lists);
    if keys[0] != id { ListsNotEmpty(keys[1..], lists, id); }
  }

  lemma NoTasks()
    ensures Tasks([]) == []
  {
  }

  lemma OneGroup(g: Group)
    ensures Tasks([g]) == g.tasks
  {
  }

  // --- removal by type ------------------------------------------------------------------------------------------

  datatype Removal<T> = NotFound | MissingTask | Removed(value: T)

  function Properties(tasks: seq<Task>): seq<string> {
    seq(|tasks|, i requires 0 <= i < |tasks| => tasks[i].properties)
  }

  /** remove_all_tasks_by_type: it never asks for a missing task; NotFound stands for the ValueError. */
  method RemoveAllTasksByType(message: IngestControlMessage, kind: string) returns (r: Removal<seq<string>>)
    requires message.Valid()
    modifies message
    ensures message.Valid() && !r.MissingTask?
    ensures r.NotFound? <==> Matching(Tasks(old(message.Groups())), kind) == []
    ensures r.NotFound? ==> message.Groups() == old(message.Groups())
    ensures r.Removed? ==>
      var heads := Heads(old(message.Groups()), kind);
      && |r.value| == |heads| && (forall i :: 0 <= i < |heads| ==> r.value[i] == heads[i].properties)
      && message.Groups() == Tails(old(message.Groups()), kind)
  {
    hide Matching, Heads, Tails, WellFormed, Pop, GroupsOf, Leads;
    ghost var before := message.Groups();
    var tasks := message.GetTasks();
    var matching := SelectKind(tasks, kind);
    if matching == [] { return NotFound; }
    LeadsStart(before, kind);
    assert matching[0..] == matching;
    var removed: seq<string> := [];
    ghost var taken: seq<Task> := [];
    for n := 0 to |matching|
      invariant message.Valid() && removed == Properties(taken)
      invariant Leads(message.Groups(), Ids(matching[n..]), taken, Heads(before, kind), Tails(before, kind))
    {
      assert Ids(matching[n..])[0] == matching[n].id && Ids(matching[n..])[1..] == Ids(matching[n + 1..]);
      LeadsOn(message.Groups(), Ids(matching[n..]), taken, Heads(before, kind), Tails(before, kind));
      var t := message.RemoveTask(matching[n].id);
      if t.None? { return MissingTask; }
      taken := taken + [t.value];
      removed := removed + [t.value.properties];
    }
    LeadsOn(message.Groups(), Ids(matching[|matching|..]), taken, Heads(before, kind), Tails(before, kind));
    return Removed(removed);
  }

  /** Popping these ids, after what is taken already, gives these tasks and leaves this message. */
  ghost predicate Leads(groups: seq<Group>, ids: seq<string>, taken: seq<Task>, all: seq<Task>, left: seq<Group>) {
    var (more, rest) := PopAll(groups, ids);
    more.Some? && taken + more.value == all && rest == left
  }

  lemma LeadsStart(groups: seq<Group>, kind: string)
    requires WellFormed(groups)
    ensures Leads(groups, Ids(Matching(Tasks(groups), kind)), [], Heads(groups, kind), Tails(groups, kind))
  {
    RemovalSplitsGroups(groups, kind);
  }

  lemma LeadsOn(groups: seq<Group>, ids: seq<string>, taken: seq<Task>, all: seq<Task>, left: seq<Group>)
    requires Leads(groups, ids, taken, all, left)
    ensures ids == [] ==> taken == all && groups == left
    ensures ids != [] ==> Pop(groups, ids[0]).0.Some?
                          && Leads(Pop(groups, ids[0]).1, ids[1..], taken + [Pop(groups, ids[0]).0.value], all, left)
  {
  }

  method SelectKind(tasks: seq<Task>, kind: string) returns (matching: seq<Task>)
    ensures matching == Matching(tasks, kind)
  {
    matching := [];
    for n := 0 to |tasks|
      invariant matching + Matching(tasks[n..], kind) == Matching(tasks, kind)
    {
      assert tasks[n..][1..] == tasks[n + 1..];
      if tasks[n].kind == kind { matching := matching + [tasks[n]]; }
    }
  }

  method FindKind(tasks: seq<Task>, kind: string) returns (found: Option<Task>)
    ensures found == if Matching(tasks, kind) == [] then None else Some(Matching(tasks, kind)[0])
  {
    hide Matching;
    for n := 0 to |tasks|
      invariant Matching(tasks, kind) == Matching(tasks[n..], kind)
    {
      MatchingHead(tasks[n..], kind);
      assert tasks[n..][1..] == tasks[n + 1..];
      if tasks[n].kind == kind { return Some(tasks[n]); }
    }
    NothingMatches(kind);
    assert tasks[|tasks|..] == [];
    return None;
  }

  /** The first task with the id of the first task of this type: what remove_task_by_type takes. */
  ghost predicate TakenFor(groups: seq<Group>, kind: string, taken: Task) {
    && Matching(Tasks(groups), kind) != []
    && Pop(groups, Matching(Tasks(groups), kind)[0].id).0 == Some(taken)
  }

  /** remove_task_by_type: finds the first task of the type, but removes the first task of that task's id. */
  method RemoveTaskByType(message: IngestControlMessage, kind: string) returns (r: Removal<string>)
    requires message.Valid()
    modifies message
    ensures message.Valid() && !r.MissingTask?
    ensures r.NotFound? <==> Matching(Tasks(old(message.Groups())), kind) == []
    ensures r.NotFound? ==> message.Groups() == old(message.Groups())
    ensures r.Removed? ==>
      exists taken :: TakenFor(old(message.Groups()), kind, taken) && r.value == taken.properties
                      && message.Groups() == Pop(old(message.Groups()), taken.id).1
  {
    hide WellFormed, Pop, GroupsOf, Matching;
    ghost var before := message.Groups();
    var tasks := message.GetTasks();
    var found := FindKind(tasks, kind);
    if found.None? { return NotFound; }
    MatchingIn(tasks, kind);
    FirstOfIdExists(before, found.value);
    var t := message.RemoveTask(found.value.id);
    if t.None? { return MissingTask; }
    return Removed(t.value.properties);
  }

  lemma MatchingHead(tasks: seq<Task>, kind: string)
    requires tasks != []
    ensures Matching(tasks, kind) == (if tasks[0].kind == kind then [tasks[0]] else []) + Matching(tasks[1..], kind)
  {
  }

  lemma {:induction false} FirstOfIdExists(groups: seq<Group>, t: Task)
    requires WellFormed(groups) && t in Tasks(groups)
    ensures Pop(groups, t.id).0.Some? && Pop(groups, t.id).0.value.id == t.id
  {
    var g, rest := groups[0], groups[1..];
    assert OfOneId(g);
    if t in g.tasks {
      assert g.tasks[0].id == g.id;
    } else {
      TasksHaveGroups(rest, t);
      FirstOfIdExists(rest, t);
    }
  }

  /** The first id with a task of the type has one in front. */
  predicate StartsWithKind(groups: seq<Group>, kind: string) {
    && groups != []
    && if Matching(groups[0].tasks, kind) != [] then groups[0].tasks[0].kind == kind
       else StartsWithKind(groups[1..], kind)
  }

  /**
   remove_task_by_type takes the first task of the type exactly when the first id that has one starts with it, and
   otherwise a task of another type.
   */
  lemma {:induction false} TakesFirstOrOther(groups: seq<Group>, kind: string, taken: Task)
    requires WellFormed(groups) && TakenFor(groups, kind, taken)
    ensures taken == Matching(Tasks(groups), kind)[0] <==> StartsWithKind(groups, kind)
    ensures taken.kind == kind <==> StartsWithKind(groups, kind)
  {
    var g, rest := groups[0], groups[1..];
    MatchingConcat(g.tasks, Tasks(rest), kind);
    var here := Matching(g.tasks, kind);
    MatchingIn(g.tasks, kind);
    assert OfOneId(g);
    if here != [] {
      assert here[0] in here;
      MatchingHead(g.tasks, kind);
    } else {
      var first := Matching(Tasks(rest), kind)[0];
      MatchingIn(Tasks(rest), kind);
      TasksHaveGroups(rest, first);
      TakesFirstOrOther(rest, kind, taken);
    }
  }

  /** It can take a task of another type: the one added before under the same id. */
  lemma TakesOtherType(id: string)
    ensures var groups := AddTo(AddTo([], Task("extract", id, "first")), Task("store", id, "second"));
            TakenFor(groups, "store", Task("extract", id, "first"))
  {
    var a, b := Task("extract", id, "first"), Task("store", id, "second");
    var groups := AddTo(AddTo([], a), b);
    assert AddTo([], a) == [Group(id, [a])];
    assert [Group(id, [a])][0].id == b.id && [Group(id, [a])][1..] == [] && [a] + [b] == [a, b];
    assert groups == [Group(id, [a, b])];
    OneGroup(groups[0]);
    MatchingHead([a, b], "store");
    assert [a, b][1..] == [b];
    MatchingHead([b], "store");
  }
}
