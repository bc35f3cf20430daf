/**
 The task manager: the in-memory task list together with the backing file.

 Every successful add, remove or complete rewrites the whole file from the
 list; a rejected index changes neither. The invariant kept throughout is
 that reloading the file reproduces the list in memory.
 */
module TaskManager {
  import opened Wrappers
  import opened Tasks
  import opened Storage
  import opened Indexing

  /** The list in memory and the current content of the backing file. */
  datatype Manager = Manager(tasks: seq<Task>, stored: Snapshot)

  /** Reloading the backing file gives exactly the list in memory. */
  predicate Consistent(m: Manager) {
    Load(m.stored) == Some(m.tasks)
  }

  /**
   Starts the manager from the backing file. A missing file gives an empty
   list; a record that does not decode makes start-up fail.
   */
  function Start(file: Snapshot): (r: Option<Manager>)
    ensures file.None? ==> r == Some(Manager([], None))
    ensures r.Some? <==> Load(file).Some?
    ensures r.Some? ==> r.value.stored == file && Consistent(r.value)
  {
    match Load(file)
    case None => None
    case Some(tasks) => Some(Manager(tasks, file))
  }

  /** Appends a task that is not done and saves the whole list. */
  function AddTask(m: Manager, description: string): (r: Manager)
    ensures |r.tasks| == |m.tasks| + 1
    ensures r.tasks[..|m.tasks|] == m.tasks
    ensures r.tasks[|m.tasks|].description == description
    ensures !r.tasks[|m.tasks|].done
    ensures r.stored == Save(r.tasks)
    ensures Consistent(r)
  {
    var tasks := m.tasks + [Task(description, false)];
    Manager(tasks, Save(tasks))
  }

  /** The list without the element at position `k`. */
  function RemoveAt<T>(s: seq<T>, k: nat): (r: seq<T>)
    requires k < |s|
    ensures |r| == |s| - 1
    ensures r[..k] == s[..k]
    ensures forall j :: k <= j < |r| ==> r[j] == s[j + 1]
    ensures multiset(r) + multiset{s[k]} == multiset(s)
  {
    assert s == s[..k] + [s[k]] + s[k + 1..];
    s[..k] + s[k + 1..]
  }

  /** How an indexed request ended. */
  datatype Outcome =
    | Succeeded(task: Task)   // the task removed or completed
    | InvalidTaskNumber       // `IndexError`, caught and reported
    | Aborted                 // `OverflowError`, which nothing catches: the program stops

  /**
   Removes the task at a Python list index and saves. `list.pop` first
   converts the index to a C `Py_ssize_t`: an index that does not fit raises
   `OverflowError`, which the program does not catch. An index that fits but
   is out of range raises the caught `IndexError`. In both cases the list and
   the file are left as they were.
   */
  function RemoveTask(m: Manager, index: int): (r: (Manager, Outcome))
    ensures r.1.Aborted? <==> !FitsSsize(index)
    ensures r.1.Succeeded? <==> FitsSsize(index) && -|m.tasks| <= index < |m.tasks|
    ensures !r.1.Succeeded? ==> r.0 == m
    ensures r.1.Succeeded? ==>
      var k := if index < 0 then index + |m.tasks| else index;
      && 0 <= k < |m.tasks|
      && r.1.task == m.tasks[k]
      && |r.0.tasks| == |m.tasks| - 1
      && r.0.tasks[..k] == m.tasks[..k]
      && (forall j :: k <= j < |r.0.tasks| ==> r.0.tasks[j] == m.tasks[j + 1])
      && multiset(r.0.tasks) + multiset{r.1.task} == multiset(m.tasks)
      && r.0.stored == Save(r.0.tasks)
  {
    if !FitsSsize(index) then (m, Aborted)
    else
      match Resolve(index, |m.tasks|)
      case None => (m, InvalidTaskNumber)
      case Some(k) =>
        var tasks := RemoveAt(m.tasks, k);
        (Manager(tasks, Save(tasks)), Succeeded(m.tasks[k]))
  }

  /**
   Marks the task at a Python list index as done and saves. Subscripting
   reports every rejected index, however large, as the caught `IndexError`;
   the list and the file are then left as they were.
   */
  function MarkTaskDone(m: Manager, index: int): (r: (Manager, Outcome))
    ensures r.1.Succeeded? <==> -|m.tasks| <= index < |m.tasks|
    ensures !r.1.Succeeded? ==> r == (m, InvalidTaskNumber)
    ensures r.1.Succeeded? ==>
      var k := if index < 0 then index + |m.tasks| else index;
      && 0 <= k < |m.tasks|
      && |r.0.tasks| == |m.tasks|
      && r.1.task == r.0.tasks[k]
      && r.0.tasks[k].done
      && (forall j :: 0 <= j < |m.tasks| ==> r.0.tasks[j].description == m.tasks[j].description)
      && (forall j :: 0 <= j < |m.tasks| && j != k ==> r.0.tasks[j] == m.tasks[j])
      && r.0.stored == Save(r.0.tasks)
  {
    match Resolve(index, |m.tasks|)
    case None => (m, InvalidTaskNumber)
    case Some(k) =>
      var tasks := m.tasks[k := MarkDone(m.tasks[k])];
      (Manager(tasks, Save(tasks)), Succeeded(tasks[k]))
  }

  /** Completing the same task twice leaves the same list and file as completing it once. */
  lemma MarkTaskDoneIdempotent(m: Manager, index: int)
    requires -|m.tasks| <= index < |m.tasks|
    ensures MarkTaskDone(MarkTaskDone(m, index).0, index).1.Succeeded?
    ensures MarkTaskDone(MarkTaskDone(m, index).0, index).0 == MarkTaskDone(m, index).0
  {
    var k := Resolve(index, |m.tasks|).value;
    var once := MarkTaskDone(m, index).0;
    assert once.tasks == m.tasks[k := MarkDone(m.tasks[k])];
    MarkDoneIdempotent(m.tasks[k]);
    assert once.tasks[k := MarkDone(once.tasks[k])] == once.tasks;
  }

  /** One line of the listing: the 1-based number shown, the text and the flag. */
  datatype Line = Line(number: nat, description: string, done: bool)

  /**
   Lists the tasks numbered from 1 in list order, reading nothing but the
   list and changing nothing. The number shown on each line, typed back at
   the menu, reaches the task on that line.
   */
  method ShowTasks(m: Manager) returns (lines: seq<Line>)
    ensures |lines| == |m.tasks|
    ensures forall i :: 0 <= i < |lines| ==>
      lines[i].number == i + 1
      && lines[i].description == m.tasks[i].description
      && lines[i].done == m.tasks[i].done
    ensures forall i :: 0 <= i < |lines| ==> Resolve(MenuIndex(lines[i].number), |m.tasks|) == Some(i)
  {
    lines := [];
    var i := 0;
    while i < |m.tasks|
      invariant i <= |m.tasks|
      invariant |lines| == i
      invariant forall j :: 0 <= j < i ==>
        lines[j] == Line(j + 1, m.tasks[j].description, m.tasks[j].done)
    {
      var task := m.tasks[i];
      lines := lines + [Line(i + 1, task.description, task.done)];
      i := i + 1;
    }
  }

  /** The requests the menu makes, with task numbers as the user typed them. */
  datatype Command = Show | Add(description: string) | Complete(number: int) | Remove(number: int)

  /**
   Carries out one menu request; task numbers go through the menu's `- 1`.
   `None` means the program stopped on an uncaught exception.
   */
  function Step(m: Manager, c: Command): (r: Option<Manager>)
    ensures r.None? <==> c.Remove? && !FitsSsize(MenuIndex(c.number))
    ensures c.Show? ==> r == Some(m)
  {
    match c
    case Show => Some(m)
    case Add(d) => Some(AddTask(m, d))
    case Complete(n) => Some(MarkTaskDone(m, MenuIndex(n)).0)
    case Remove(n) =>
      var removal := RemoveTask(m, MenuIndex(n));
      if removal.1.Aborted? then None else Some(removal.0)
  }

  /**
   Carries out a session of menu requests in order, up to the end of the
   session or to the request that stops the program. The result is the
   state the program was in last.
   */
  function Run(m: Manager, cs: seq<Command>): Manager
    decreases |cs|
  {
    if cs == [] then m
    else
      match Step(m, cs[0])
      case None => m
      case Some(m') => Run(m', cs[1..])
  }

  /** Every request that the program survives keeps the file in step with the list. */
  lemma StepKeepsConsistent(m: Manager, c: Command)
    requires Consistent(m)
    ensures Step(m, c).Some? ==> Consistent(Step(m, c).value)
  {
  }

  /** After any session, reloading the file reproduces the list in memory. */
  lemma {:induction false} RunKeepsConsistent(m: Manager, cs: seq<Command>)
    requires Consistent(m)
    ensures Consistent(Run(m, cs))
    decreases |cs|
  {
    if cs != [] {
      StepKeepsConsistent(m, cs[0]);
      if Step(m, cs[0]).Some? {
        RunKeepsConsistent(Step(m, cs[0]).value, cs[1..]);
      }
    }
  }

  /**
   A typed number whose index does not fit a `Py_ssize_t` ends the program
   at the remove prompt (for example 9223372036854775809, index 2^63): the
   later requests never run, and list and file stay as they were.
   */
  lemma RemoveOverflowEndsSession(m: Manager, number: int, rest: seq<Command>)
    requires !FitsSsize(MenuIndex(number))
    ensures Run(m, [Remove(number)] + rest) == m
  {
    assert ([Remove(number)] + rest)[0] == Remove(number);
  }

  /** A typed 0 is not rejected: it reaches index -1 and removes the last task. */
  lemma RemoveZeroRemovesLast(m: Manager)
    requires |m.tasks| > 0
    ensures Step(m, Remove(0)).Some?
    ensures Step(m, Remove(0)).value.tasks == m.tasks[..|m.tasks| - 1]
  {
  }

  /**
   A typed number outside `[1 - n, n]` changes neither the list nor the file.
   The program carries on, except at the remove prompt with a number whose
   index does not fit a `Py_ssize_t`, where it stops.
   */
  lemma OutOfRangeNumberChangesNothing(m: Manager, c: Command)
    requires c.Complete? || c.Remove?
    requires c.number < 1 - |m.tasks| || c.number > |m.tasks|
    ensures c.Complete? || FitsSsize(MenuIndex(c.number)) ==> Step(m, c) == Some(m)
    ensures c.Remove? && !FitsSsize(MenuIndex(c.number)) ==> Step(m, c) == None
  {
  }

  /**
   Typing a listed number at the remove prompt removes exactly that task and
   saves. A CPython list never holds more than `Py_ssize_t`'s maximum of
   elements, so every listed number converts.
   */
  lemma ListedNumberRemoves(m: Manager, number: int)
    requires |m.tasks| <= SsizeMax
    requires 1 <= number <= |m.tasks|
    ensures Step(m, Remove(number)).Some?
    ensures Step(m, Remove(number)).value.tasks == RemoveAt(m.tasks, number - 1)
    ensures Step(m, Remove(number)).value.stored == Save(RemoveAt(m.tasks, number - 1))
  {
  }

  /** Typing a listed number at the complete prompt marks exactly that task done and saves. */
  lemma ListedNumberCompletes(m: Manager, number: int)
    requires 1 <= number <= |m.tasks|
    ensures Step(m, Complete(number)).Some?
    ensures Step(m, Complete(number)).value.tasks == m.tasks[number - 1 := MarkDone(m.tasks[number - 1])]
    ensures Step(m, Complete(number)).value.stored == Save(Step(m, Complete(number)).value.tasks)
  {
  }

  /** A session runs its first request, then the rest from the state it leaves. */
  lemma RunFirstStep(m: Manager, cs: seq<Command>)
    requires cs != [] && Step(m, cs[0]).Some?
    ensures Run(m, cs) == Run(Step(m, cs[0]).value, cs[1..])
  {
  }

  /** A session of four requests ends where its four steps, taken in turn, lead. */
  lemma RunFourSteps(m0: Manager, m1: Manager, m2: Manager, m3: Manager, m4: Manager,
                     c0: Command, c1: Command, c2: Command, c3: Command)
    requires Step(m0, c0) == Some(m1) && Step(m1, c1) == Some(m2)
    requires Step(m2, c2) == Some(m3) && Step(m3, c3) == Some(m4)
    ensures Run(m0, [c0, c1, c2, c3]) == m4
  {
    var cs := [c0, c1, c2, c3];
    RunFirstStep(m0, cs);
    assert cs[1..] == [c1, c2, c3];
    RunFirstStep(m1, cs[1..]);
    assert cs[2..] == [c2, c3];
    RunFirstStep(m2, cs[2..]);
    assert cs[3..] == [c3];
    RunFirstStep(m3, cs[3..]);
  }

  /** The states an empty manager passes through when two tasks are added, then number 1 completed and removed. */
  lemma AddTwoCompleteRemoveFirstSteps(m0: Manager, first: string, second: string)
    returns (m1: Manager, m2: Manager, m3: Manager, m4: Manager)
    requires m0.tasks == []
    ensures Step(m0, Add(first)) == Some(m1) && Step(m1, Add(second)) == Some(m2)
    ensures Step(m2, Complete(1)) == Some(m3) && Step(m3, Remove(1)) == Some(m4)
    ensures m4.tasks == [Task(second, false)]
  {
    m1 := AddTask(m0, first);
    m2 := AddTask(m1, second);
    assert m2.tasks == [Task(first, false), Task(second, false)] by {
      assert m1.tasks == [Task(first, false)];
    }
    ListedNumberCompletes(m2, 1);
    m3 := Step(m2, Complete(1)).value;
    assert m3.tasks == [Task(first, true), Task(second, false)];
    ListedNumberRemoves(m3, 1);
    m4 := Step(m3, Remove(1)).value;
    assert m4.tasks == RemoveAt(m3.tasks, 0);
  }

  /**
   On an empty manager: add two tasks, complete number 1, remove number 1.
   The second task is left, not done.
   */
  lemma AddTwoCompleteRemoveFirst(m0: Manager, first: string, second: string)
    requires m0.tasks == []
    ensures Run(m0, [Add(first), Add(second), Complete(1), Remove(1)]).tasks == [Task(second, false)]
  {
    var m1, m2, m3, m4 := AddTwoCompleteRemoveFirstSteps(m0, first, second);
    RunFourSteps(m0, m1, m2, m3, m4, Add(first), Add(second), Complete(1), Remove(1));
  }

  /**
   The session from a first run with no file: add two tasks, complete the
   first, remove the first. One undone task is left, and a restart that
   reloads the file sees the same single task.
   */
  lemma FirstRunSession()
    ensures Start(None).Some?
    ensures
      var m := Run(Start(None).value,
                   [Add("buy milk"), Add("write report"), Complete(1), Remove(1)]);
      && m.tasks == [Task("write report", false)]
      && Start(m.stored) == Some(m)
  {
    var cs := [Add("buy milk"), Add("write report"), Complete(1), Remove(1)];
    AddTwoCompleteRemoveFirst(Start(None).value, "buy milk", "write report");
    RunKeepsConsistent(Start(None).value, cs);
  }
}
