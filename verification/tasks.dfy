/**
 A single to-do entry and its stored record form.

 A task is a description together with a completion flag. On disk a task is
 one JSON object with a "description" and a "done" field; `ToDict` and
 `FromDict` convert between the two.
 */
module Tasks {
  import opened Wrappers

  /** One to-do entry. */
  datatype Task = Task(description: string, done: bool)

  /** Completing a task sets its flag and leaves its text alone. */
  function MarkDone(t: Task): (r: Task)
    ensures r.done
    ensures r.description == t.description
  {
    t.(done := true)
  }

  /** Completing twice is the same as completing once. */
  lemma MarkDoneIdempotent(t: Task)
    ensures MarkDone(MarkDone(t)) == MarkDone(t)
    ensures MarkDone(t).description == t.description
  {
  }

  /**
   A JSON value in a stored record: a string, a boolean, or any other JSON
   value (number, null, array, object), whose content is not tracked.
   */
  datatype Value = Text(text: string) | Flag(flag: bool) | Other

  /** A JSON object: field names mapped to values. */
  type Record = map<string, Value>

  const DescriptionKey: string := "description"
  const DoneKey: string := "done"

  /** A record that `FromDict` accepts: both fields are present and of the right kind. */
  predicate WellFormed(r: Record) {
    && DescriptionKey in r && r[DescriptionKey].Text?
    && DoneKey in r && r[DoneKey].Flag?
  }

  /** A record exactly as `ToDict` writes it: the two fields and nothing else. */
  predicate Canonical(r: Record) {
    WellFormed(r) && r.Keys == {DescriptionKey, DoneKey}
  }

  /** Encodes a task as a record holding exactly its two fields. */
  function ToDict(t: Task): (r: Record)
    ensures Canonical(r)
    ensures r[DescriptionKey].text == t.description
    ensures r[DoneKey].flag == t.done
  {
    map[DescriptionKey := Text(t.description), DoneKey := Flag(t.done)]
  }

  /**
   Decodes a record into a task. A missing field is the `KeyError` of the
   dictionary lookup and yields `None`; fields other than the two are ignored.
   */
  function FromDict(r: Record): (t: Option<Task>)
    ensures t.Some? <==> WellFormed(r)
    ensures t.Some? ==> t.value.description == r[DescriptionKey].text
    ensures t.Some? ==> t.value.done == r[DoneKey].flag
  {
    if DescriptionKey !in r || DoneKey !in r then None
    else
      match (r[DescriptionKey], r[DoneKey])
      case (Text(d), Flag(b)) => Some(Task(d, b))
      case _ => None
  }

  /** Decoding an encoded task gives the task back. */
  lemma FromDictToDict(t: Task)
    ensures FromDict(ToDict(t)) == Some(t)
  {
  }

  /** Encoding a decoded canonical record gives the record back. */
  lemma ToDictFromDict(r: Record)
    requires Canonical(r)
    ensures FromDict(r).Some? && ToDict(FromDict(r).value) == r
  {
  }

  /** Decoding looks only at the two named fields. */
  lemma FromDictIgnoresOtherFields(r: Record, k: string, v: Value)
    requires k != DescriptionKey && k != DoneKey
    ensures FromDict(r[k := v]) == FromDict(r)
  {
  }
}
