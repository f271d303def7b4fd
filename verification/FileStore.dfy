// The desktop's key-value store (mastomini_bots/src/store.rs): one file, replaced whole on every write, and a change in
// memory that is undone when the file cannot be written. This is the store whose writes succeed or leave the old value.
module FileStore {
  import opened Options

  type Text = map<string, string>

  /** A write that fails may do so before or after the temporary file is there. */
  datatype Fault = NoFault | WriteFails | RenameFails

  datatype Call = Put(key: string, value: string) | Delete(key: string)

  function Changed(text: Text, call: Call): Text {
    match call
    case Put(key, value) => text[key := value]
    case Delete(key) => text - {key}
  }

  /** Deleting what is not there writes nothing, and cannot fail. */
  predicate Succeeds(text: Text, call: Call, fault: Fault) {
    fault.NoFault? || (call.Delete? && call.key !in text)
  }

  class Store {
    var live: Text
    /** The file, and the temporary one beside it. */
    var file: Text
    var temporary: Option<Text>

    ghost predicate Valid()
      reads this
    {
      live == file
    }

    constructor Open(file: Text, temporary: Option<Text>)
      ensures Valid() && live == file && this.file == file
    {
      live, this.file, this.temporary := file, file, temporary;
    }

    method Save(fault: Fault) returns (ok: bool)
      modifies this`file, this`temporary
      ensures ok == fault.NoFault? && file == if ok then live else old(file)
    {
      if fault.WriteFails? { return false; }
      temporary := Some(live);
      if fault.RenameFails? { return false; }
      file, temporary := live, None;
      return true;
    }

    method PutValue(key: string, value: string, fault: Fault) returns (ok: bool)
      requires Valid()
      modifies this
      ensures Valid() && ok == Succeeds(old(file), Put(key, value), fault)
      ensures file == if ok then Changed(old(file), Put(key, value)) else old(file)
    {
      var previous := if key in live then Some(live[key]) else None;
      live := live[key := value];
      ok := Save(fault);
      if !ok {
        match previous {
          case Some(value) => live := live[key := value];
          case None => live := live - {key};
        }
      }
    }

    method DeleteValue(key: string, fault: Fault) returns (ok: bool)
      requires Valid()
      modifies this
      ensures Valid() && ok == Succeeds(old(file), Delete(key), fault)
      ensures file == if ok then Changed(old(file), Delete(key)) else old(file)
    {
      ok := true;
      if key in live {
        var previous := live[key];
        live := live - {key};
        ok := Save(fault);
        if !ok { live := live[key := previous]; }
      }
    }
  }

  /** The file after some calls, each with its fault. */
  function After(text: Text, calls: seq<(Call, Fault)>): Text
    decreases |calls|
  {
    if calls == [] then text
    else After(if Succeeds(text, calls[0].0, calls[0].1) then Changed(text, calls[0].0) else text, calls[1..])
  }

  function KeyOf(call: Call): string {
    call.key
  }

  /** A key's value is that of its last call that succeeded - nothing, if that was a deletion - however many failed and
      whatever happened to other keys. */
  lemma {:induction false} LastSuccessStands(text: Text, calls: seq<(Call, Fault)>, i: nat)
    requires i < |calls| && Succeeds(After(text, calls[..i]), calls[i].0, calls[i].1)
    requires forall j :: i < j < |calls| && KeyOf(calls[j].0) == KeyOf(calls[i].0) ==>
               !Succeeds(After(text, calls[..j]), calls[j].0, calls[j].1)
    ensures var key, end := KeyOf(calls[i].0), After(text, calls);
            match calls[i].0
            case Put(_, value) => key in end && end[key] == value
            case Delete(_) => key !in end
    decreases |calls|
  {
    var n := |calls| - 1;
    AfterLast(text, calls);
    if i < n {
      var front := calls[..n];
      assert forall j :: 0 <= j <= n ==> front[..j] == calls[..j];
      LastSuccessStands(text, front, i);
    }
  }

  lemma {:induction false} AfterLast(text: Text, calls: seq<(Call, Fault)>)
    requires calls != []
    ensures var n := |calls| - 1;
            var before := After(text, calls[..n]);
            After(text, calls) == if Succeeds(before, calls[n].0, calls[n].1) then Changed(before, calls[n].0) else before
    decreases |calls|
  {
    var n := |calls| - 1;
    if n > 0 {
      var next := if Succeeds(text, calls[0].0, calls[0].1) then Changed(text, calls[0].0) else text;
      assert calls[..n][1..] == calls[1..][..n - 1];
      AfterLast(next, calls[1..]);
    }
  }
}
