/** The state file: written to a temporary file, then renamed. The process may stop after any step. */
module StateStore {
  import opened Text

  /** `Stopped`: the process ended before the call returned; `renamed` tells whether the rename had happened. */
  datatype SaveOutcome = Saved | Failed | Stopped(renamed: bool)

  datatype LoadResult<T> = Loaded(value: T) | Absent | Unreadable | Corrupt

  /** What a load makes of the content of the state file. */
  function Interpret<T>(decode: string -> Option<T>, content: Option<string>): LoadResult<T> {
    if content.None? || content.value == "" then Absent
    else match decode(content.value)
      case Some(v) => Loaded(v)
      case None => Corrupt
  }

  /** The encoding is read back, and is never empty (no JSON document is). */
  ghost predicate RoundTrips<T(!new)>(encode: T -> string, decode: string -> Option<T>) {
    forall v: T :: decode(encode(v)) == Some(v) && encode(v) != ""
  }

  /** Whether a save got as far as its rename. */
  predicate Renamed(o: SaveOutcome) {
    o.Saved? || o == Stopped(true)
  }

  /** The value of the last save that renamed, among saves of `values` with the given outcomes. */
  function LastRenamed<T>(values: seq<T>, outcomes: seq<SaveOutcome>): Option<T>
    requires |values| == |outcomes|
  {
    if values == [] then None
    else
      var n := |values| - 1;
      if Renamed(outcomes[n]) then Some(values[n]) else LastRenamed(values[..n], outcomes[..n])
  }

  function OrElse<T>(value: Option<T>, fallback: Option<T>): Option<T> {
    if value.Some? then value else fallback
  }

  class StateFile<T(!new)> {
    const encode: T -> string
    const decode: string -> Option<T>
    var main: Option<string>
    var temp: Option<string>

    /** The value of the last rename that happened. */
    ghost var committed: Option<T>

    /** The file holds what the last rename committed, whatever is in the temporary file. */
    ghost predicate Valid()
      reads this
    {
      && RoundTrips(encode, decode)
      && main == match committed case None => None case Some(v) => Some(encode(v))
    }

    constructor (encode: T -> string, decode: string -> Option<T>)
      requires RoundTrips(encode, decode)
      ensures Valid() && committed == None
    {
      this.encode, this.decode := encode, decode;
      main, temp, committed := None, None, None;
    }

    /** Writes the temporary file; a write that fails or is cut short leaves any prefix. */
    method WriteTemp(payload: string) returns (o: SaveOutcome)
      modifies this`temp
      ensures o.Saved? ==> temp == Some(payload)
      ensures o.Stopped? ==> !o.renamed
    {
      var torn :| 0 <= torn <= |payload|;
      temp := Some(payload[..torn]);
      if * {
        return Failed;
      } else if * {
        return Stopped(false);
      }
      temp := Some(payload);
      return Saved;
    }

    method Save(value: T) returns (o: SaveOutcome)
      requires Valid()
      modifies this
      ensures Valid()
      ensures committed == if Renamed(o) then Some(value) else old(committed)
      ensures main == if Renamed(o) then Some(encode(value)) else old(main)
    {
      if * {
        return Failed;
      } else if * {
        return Stopped(false);
      }
      var payload := encode(value);
      o := WriteTemp(payload);
      if !o.Saved? {
        return;
      }
      if * {
        return Stopped(false);
      } else if * {
        return Failed;
      }
      main, temp := temp, None;
      committed := Some(value);
      if * {
        return Stopped(true);
      }
    }

    method Load() returns (r: LoadResult<T>)
      requires Valid()
      ensures !r.Unreadable? ==> r == match committed case None => Absent case Some(v) => Loaded(v)
    {
      if * {
        return Unreadable;
      }
      r := Interpret(decode, main);
    }

    /** Any sequence of saves, each of which may fail or be cut short by a stop and a restart: a load then
        returns the value of the last rename that happened, or, without any, what was there before. */
    method SaveAll(values: seq<T>) returns (outcomes: seq<SaveOutcome>, r: LoadResult<T>)
      requires Valid()
      modifies this
      ensures Valid() && |outcomes| == |values|
      ensures r == match OrElse(LastRenamed(values, outcomes), old(committed))
                   case None => Absent
                   case Some(v) => Loaded(v)
    {
      outcomes := [];
      for i := 0 to |values|
        invariant Valid() && |outcomes| == i
        invariant committed == OrElse(LastRenamed(values[..i], outcomes), old(committed))
      {
        var o := Save(values[i]);
        outcomes := outcomes + [o];
        assert values[..i + 1][..i] == values[..i] && outcomes[..i] + [o] == outcomes;
      }
      assert values[..|values|] == values;
      r := Interpret(decode, main);
    }
  }

  /** A file that is empty counts as absent; one that does not decode is reported, and never taken for a state. */
  lemma InterpretMeans<T>(decode: string -> Option<T>, content: Option<string>)
    ensures var r := Interpret(decode, content);
            && (r.Absent? <==> content == None || content == Some(""))
            && (r.Corrupt? <==> content.Some? && content.value != "" && decode(content.value).None?)
            && (forall v :: r == Loaded(v) ==> content.Some? && decode(content.value) == Some(v))
  {}
}
