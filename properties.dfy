/** The property dictionary of src/deft/properties.py: a dict from property name to a value,
    where appending to a name turns a scalar into a list and removing from a list of two
    turns it back into a scalar. */
module Properties {
  import opened Wrappers
  import opened PyValues

  type Entries = map<string, PyValue>

  /** The values a property holds: none when absent, the items of a list, or the one scalar. */
  function ValuesOf(e: Entries, name: string): seq<PyValue> {
    if name !in e then []
    else match e[name]
      case PList(items) => items
      case v => [v]
  }

  /** list.remove(value): the list without the first occurrence of value (which it holds). */
  function RemoveFirst(xs: seq<PyValue>, value: PyValue): (ys: seq<PyValue>)
    requires value in xs
    ensures |ys| == |xs| - 1
    ensures exists i :: 0 <= i < |xs| && xs[i] == value && value !in xs[..i] && ys == xs[..i] + xs[i + 1..]
  {
    if xs[0] == value then
      assert xs[..0] == [] && xs[1..] == xs[0 + 1..];
      xs[1..]
    else
      var rest := RemoveFirst(xs[1..], value);
      ghost var i :| 0 <= i < |xs[1..]| && xs[1..][i] == value && value !in xs[1..][..i]
                    && rest == xs[1..][..i] + xs[1..][i + 1..];
      RemovalBehindHead(xs, value, rest, i);
      [xs[0]] + rest
  }

  /** Removing the first occurrence from a list's tail removes it from the list. */
  lemma RemovalBehindHead(xs: seq<PyValue>, value: PyValue, rest: seq<PyValue>, i: nat)
    requires xs != [] && xs[0] != value && i < |xs| - 1
    requires xs[1..][i] == value && value !in xs[1..][..i] && rest == xs[1..][..i] + xs[1..][i + 1..]
    ensures xs[i + 1] == value && value !in xs[..i + 1] && [xs[0]] + rest == xs[..i + 1] + xs[i + 2..]
  {
    assert xs[..i + 1] == [xs[0]] + xs[1..][..i];
    assert xs[1..][i + 1..] == xs[i + 2..];
  }

  /** What a list left with its remaining items becomes: its only element when one is left. */
  function Collapsed(rest: seq<PyValue>): PyValue {
    if |rest| == 1 then rest[0] else PList(rest)
  }

  /** append(name, value): the named property gains value as its last value; every other
      property is unchanged. */
  function Appended(e: Entries, name: string, value: PyValue): (r: Entries)
    ensures r.Keys == e.Keys + {name}
    ensures forall k :: k in e && k != name ==> r[k] == e[k]
    ensures !value.PList? ==> ValuesOf(r, name) == ValuesOf(e, name) + [value]
  {
    if name !in e then e[name := value]
    else match e[name]
      case PList(items) => e[name := PList(items + [value])]
      case old_value => e[name := PList([old_value, value])]
  }

  /** remove(name, value): a list property loses the first occurrence of value and, left with
      one element, becomes that element; a scalar property is deleted whatever the value; an
      absent property is left alone. list.remove raises ValueError when value is missing. */
  function Removed(e: Entries, name: string, value: PyValue): (r: Result<Entries>)
    ensures name !in e ==> r == Ok(e)
    ensures name in e && !e[name].PList? ==> r == Ok(e - {name})
    ensures r.Err? <==> name in e && e[name].PList? && value !in e[name].items
    ensures r.Ok? ==> r.value.Keys <= e.Keys && forall k :: k in e && k != name ==> k in r.value && r.value[k] == e[k]
    ensures r.Ok? && name in e && e[name].PList? ==>
      name in r.value
      && (exists i :: 0 <= i < |e[name].items| && e[name].items[i] == value && value !in e[name].items[..i]
                      && Collapsed(e[name].items[..i] + e[name].items[i + 1..]) == r.value[name])
  {
    if name !in e then Ok(e)
    else match e[name]
      case PList(items) =>
        if value !in items then Err(ValueError("list.remove(x): x not in list"))
        else
          var rest := RemoveFirst(items, value);
          Ok(e[name := Collapsed(rest)])
      case _ => Ok(e - {name})
  }

  class PropertyDict {
    var entries: Entries

    constructor()
      ensures entries == map[]
    {
      entries := map[];
    }

    method Append(name: string, value: PyValue)
      modifies this`entries
      ensures entries == Appended(old(entries), name, value)
    {
      if name !in entries {
        entries := entries[name := value];
      } else if entries[name].PList? {
        entries := entries[name := PList(entries[name].items + [value])];
      } else {
        entries := entries[name := PList([entries[name], value])];
      }
    }

    method Remove(name: string, value: PyValue) returns (r: Outcome)
      modifies this`entries
      ensures Removed(old(entries), name, value).Ok? ==> r == Pass && entries == Removed(old(entries), name, value).value
      ensures Removed(old(entries), name, value).Err? ==>
        r == Fail(Removed(old(entries), name, value).error) && entries == old(entries)
    {
      if name in entries {
        if entries[name].PList? {
          var items := entries[name].items;
          if value !in items {
            return Fail(ValueError("list.remove(x): x not in list"));
          }
          var rest := RemoveFirst(items, value);
          ghost var expected := entries[name := Collapsed(rest)];
          assert Removed(entries, name, value) == Ok(expected);
          if |rest| == 1 {
            entries := entries[name := rest[0]];
          } else {
            entries := entries[name := PList(rest)];
          }
          assert entries == expected;
        } else {
          assert Removed(entries, name, value) == Ok(entries - {name});
          entries := entries - {name};
        }
      }
      r := Pass;
    }
  }

  lemma {:induction false} RemoveFirstOfSnoc(xs: seq<PyValue>, value: PyValue)
    requires value !in xs
    ensures RemoveFirst(xs + [value], value) == xs
    decreases |xs|
  {
    if xs == [] {
    } else {
      assert (xs + [value])[1..] == xs[1..] + [value];
      RemoveFirstOfSnoc(xs[1..], value);
    }
  }

  /** Removing a value just appended restores the properties, unless the property was a
      list already holding the value or a list of exactly one element, or was absent and the
      value is itself a list (stored as the property's list of values). */
  lemma RemoveUndoesAppend(e: Entries, name: string, value: PyValue)
    requires name !in e ==> !value.PList?
    requires name in e && e[name].PList? ==> value !in e[name].items && |e[name].items| != 1
    ensures Removed(Appended(e, name, value), name, value) == Ok(e)
  {
    if name in e {
      match e[name]
      case PList(items) =>
        RemoveUndoesAppendToList(e, name, items, value);
      case v =>
        RemoveUndoesAppendToScalar(e, name, v, value);
    } else {
      assert Appended(e, name, value) - {name} == e;
    }
  }

  lemma RemoveUndoesAppendToList(e: Entries, name: string, items: seq<PyValue>, value: PyValue)
    requires name in e && e[name] == PList(items) && value !in items && |items| != 1
    ensures Removed(Appended(e, name, value), name, value) == Ok(e)
  {
    var a := e[name := PList(items + [value])];
    assert Appended(e, name, value) == a;
    RemoveFirstOfSnoc(items, value);
    assert Removed(a, name, value) == Ok(a[name := Collapsed(items)]);
    UpdateRestored(e, name, PList(items + [value]));
  }

  lemma RemoveUndoesAppendToScalar(e: Entries, name: string, v: PyValue, value: PyValue)
    requires name in e && e[name] == v && !v.PList?
    ensures Removed(Appended(e, name, value), name, value) == Ok(e)
  {
    var a := e[name := PList([v, value])];
    assert Appended(e, name, value) == a;
    assert RemoveFirst([v, value], value) == [v];
    assert Removed(a, name, value) == Ok(a[name := v]);
    UpdateRestored(e, name, PList([v, value]));
  }

  /** Setting a property and then setting it back to its old value changes nothing. */
  lemma UpdateRestored(e: Entries, name: string, x: PyValue)
    requires name in e
    ensures e[name := x][name := e[name]] == e
  {
  }

}
