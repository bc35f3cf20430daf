/**
 The backing file of the task list.

 The file holds a JSON array with one record per task, in list order. A
 snapshot is the file's content, or `None` when the file does not exist.
 Saving always rewrites the whole array; loading decodes every record.
 */
module Storage {
  import opened Wrappers
  import opened Tasks

  /** The content of the backing file; `None` means the file is missing. */
  type Snapshot = Option<seq<Record>>

  /** One record per task, in the same order. */
  function Encode(tasks: seq<Task>): (rs: seq<Record>)
    ensures |rs| == |tasks|
    ensures forall i :: 0 <= i < |tasks| ==> FromDict(rs[i]) == Some(tasks[i])
    ensures forall i :: 0 <= i < |rs| ==> Canonical(rs[i])
  {
    if tasks == [] then []
    else
      FromDictToDict(tasks[0]);
      [ToDict(tasks[0])] + Encode(tasks[1..])
  }

  /**
   Decodes every record in order; fails as a whole when any record is not
   well formed, so no partially decoded list is ever produced.
   */
  function Decode(rs: seq<Record>): (r: Option<seq<Task>>)
    ensures r.Some? <==> forall i :: 0 <= i < |rs| ==> WellFormed(rs[i])
    ensures r.Some? ==> |r.value| == |rs|
    ensures r.Some? ==> forall i :: 0 <= i < |rs| ==> FromDict(rs[i]) == Some(r.value[i])
  {
    if rs == [] then Some([])
    else
      match (FromDict(rs[0]), Decode(rs[1..]))
      case (Some(t), Some(ts)) => Some([t] + ts)
      case _ => None
  }

  /** Reads the stored list; a missing file gives the empty list. */
  function Load(file: Snapshot): (r: Option<seq<Task>>)
    ensures file.None? ==> r == Some([])
    ensures file.Some? ==> (r.Some? <==> forall i :: 0 <= i < |file.value| ==> WellFormed(file.value[i]))
    ensures file.Some? && r.Some? ==> |r.value| == |file.value|
    ensures file.Some? && r.Some? ==>
      forall i :: 0 <= i < |file.value| ==> FromDict(file.value[i]) == Some(r.value[i])
  {
    match file
    case None => Some([])
    case Some(rs) => Decode(rs)
  }

  /** Loading what was just saved reproduces the list, in order. */
  lemma {:induction false} LoadAfterSave(tasks: seq<Task>)
    ensures Load(Some(Encode(tasks))) == Some(tasks)
  {
    if tasks != [] {
      var rs := Encode(tasks);
      assert rs[1..] == Encode(tasks[1..]);
      LoadAfterSave(tasks[1..]);
      assert [tasks[0]] + tasks[1..] == tasks;
    }
  }

  /** Overwrites the whole file with the encoding of the list. */
  function Save(tasks: seq<Task>): (file: Snapshot)
    ensures file.Some? && |file.value| == |tasks|
    ensures forall i :: 0 <= i < |tasks| ==> file.value[i] == ToDict(tasks[i])
    ensures Load(file) == Some(tasks)
  {
    LoadAfterSave(tasks);
    Some(Encode(tasks))
  }

  /** Saving what was loaded from a file written by `Save` gives the same file. */
  lemma {:induction false} SaveAfterLoad(rs: seq<Record>)
    requires forall i :: 0 <= i < |rs| ==> Canonical(rs[i])
    ensures Load(Some(rs)).Some?
    ensures Encode(Load(Some(rs)).value) == rs
    ensures Save(Load(Some(rs)).value) == Some(rs)
  {
    if rs != [] {
      SaveAfterLoad(rs[1..]);
      var t := FromDict(rs[0]).value;
      var ts := Decode(rs[1..]).value;
      assert Decode(rs) == Some([t] + ts);
      ToDictFromDict(rs[0]);
      assert ([t] + ts)[1..] == ts;
      assert Encode([t] + ts) == [ToDict(t)] + Encode(ts);
      assert rs == [rs[0]] + rs[1..];
    }
  }
}
