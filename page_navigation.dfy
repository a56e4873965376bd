/**
  `getPageUrl`: the page's query string with some parameters replaced or
  removed. The browser's `URLSearchParams` object is modelled as a class
  holding its list of name-value pairs.
*/
module PageNavigation {
  import opened Wrappers

  type Entry = (string, string)

  /** The pairs named `name`, in order. */
  function Only(es: seq<Entry>, name: string): seq<Entry>
  {
    if es == [] then []
    else (if es[0].0 == name then [es[0]] else []) + Only(es[1..], name)
  }

  /** `URLSearchParams.prototype.delete(name)`: every pair named `name` goes. */
  function Remove(es: seq<Entry>, name: string): seq<Entry>
  {
    if es == [] then []
    else (if es[0].0 == name then [] else [es[0]]) + Remove(es[1..], name)
  }

  /**
    `URLSearchParams.prototype.set(name, value)`: the first pair named `name`
    takes the value and any later ones go; with none, the pair is appended.
  */
  function SetEntry(es: seq<Entry>, name: string, value: string): seq<Entry>
  {
    if es == [] then [(name, value)]
    else if es[0].0 == name then [(name, value)] + Remove(es[1..], name)
    else [es[0]] + SetEntry(es[1..], name, value)
  }

  /** `URLSearchParams.prototype.get(name)`: the value of the first pair named `name`. */
  function Lookup(es: seq<Entry>, name: string): (r: Option<string>)
    ensures r.None? <==> Only(es, name) == []
    ensures r.Some? ==> r.value == Only(es, name)[0].1
  {
    if es == [] then None
    else if es[0].0 == name then Some(es[0].1)
    else Lookup(es[1..], name)
  }

  /** The query text: `name=value` pairs joined by `&` (percent-encoding is not modelled). */
  function Serialize(es: seq<Entry>): string
  {
    if es == [] then ""
    else if |es| == 1 then es[0].0 + "=" + es[0].1
    else es[0].0 + "=" + es[0].1 + "&" + Serialize(es[1..])
  }

  lemma {:induction false} RemoveOnly(es: seq<Entry>, name: string, other: string)
    ensures Only(Remove(es, name), name) == []
    ensures other != name ==> Only(Remove(es, name), other) == Only(es, other)
  {
    if es != [] {
      RemoveOnly(es[1..], name, other);
      var r := Remove(es, name);
      if es[0].0 != name {
        assert r == [es[0]] + Remove(es[1..], name);
        assert r[0] == es[0] && r[1..] == Remove(es[1..], name);
        assert Only(r, name) == Only(r[1..], name);
        assert Only(r, other) == (if es[0].0 == other then [es[0]] else []) + Only(r[1..], other);
      } else {
        assert r == Remove(es[1..], name);
      }
    }
  }

  lemma {:induction false} SetEntryOnly(es: seq<Entry>, name: string, value: string, other: string)
    ensures Only(SetEntry(es, name, value), name) == [(name, value)]
    ensures other != name ==> Only(SetEntry(es, name, value), other) == Only(es, other)
  {
    if es == [] {
    } else if es[0].0 == name {
      RemoveOnly(es[1..], name, other);
    } else {
      SetEntryOnly(es[1..], name, value, other);
    }
  }

  lemma {:induction false} RemoveAbsent(es: seq<Entry>, name: string)
    requires Only(es, name) == []
    ensures Remove(es, name) == es
  {
    if es != [] {
      RemoveAbsent(es[1..], name);
    }
  }

  lemma {:induction false} SetEntrySettled(es: seq<Entry>, name: string, value: string)
    requires Only(es, name) == [(name, value)]
    ensures SetEntry(es, name, value) == es
  {
    if es[0].0 == name {
      RemoveAbsent(es[1..], name);
    } else {
      SetEntrySettled(es[1..], name, value);
    }
  }

  /** The class of the browser's `URLSearchParams`, reduced to its list of pairs. */
  class SearchParams {
    var entries: seq<Entry>

    /** `new URLSearchParams(other.toString())`: a fresh object with the same pairs. */
    constructor (init: seq<Entry>)
      ensures entries == init
    {
      entries := init;
    }

    method Set(name: string, value: string)
      modifies this
      ensures entries == SetEntry(old(entries), name, value)
    {
      entries := SetEntry(entries, name, value);
    }

    method Delete(name: string)
      modifies this
      ensures entries == Remove(old(entries), name)
    {
      entries := Remove(entries, name);
    }

    function ToString(): string
      reads this
    {
      Serialize(entries)
    }
  }

  /** One pass of the loop: set a truthy value, delete the key otherwise. */
  function Step(es: seq<Entry>, update: (string, Option<string>)): seq<Entry>
  {
    if Truthy(update.1) then SetEntry(es, update.0, update.1.value) else Remove(es, update.0)
  }

  /** The pairs after the loop has handled `updates` in order. */
  function Apply(es: seq<Entry>, updates: seq<(string, Option<string>)>): seq<Entry>
  {
    if updates == [] then es else Step(Apply(es, updates[..|updates| - 1]), updates[|updates| - 1])
  }

  /** The keys of a record are distinct. */
  predicate DistinctKeys(updates: seq<(string, Option<string>)>)
  {
    forall i, j :: 0 <= i < j < |updates| ==> updates[i].0 != updates[j].0
  }

  /** The pairs a key of `newValues` is left with: just its value when truthy, none otherwise. */
  function Expected(update: (string, Option<string>)): seq<Entry>
  {
    if Truthy(update.1) then [(update.0, update.1.value)] else []
  }

  predicate Settled(es: seq<Entry>, updates: seq<(string, Option<string>)>)
  {
    forall i :: 0 <= i < |updates| ==> Only(es, updates[i].0) == Expected(updates[i])
  }

  lemma StepOnly(es: seq<Entry>, update: (string, Option<string>), other: string)
    ensures Only(Step(es, update), update.0) == Expected(update)
    ensures other != update.0 ==> Only(Step(es, update), other) == Only(es, other)
  {
    if Truthy(update.1) {
      SetEntryOnly(es, update.0, update.1.value, other);
    } else {
      RemoveOnly(es, update.0, other);
    }
  }

  /**
    After the loop every key of `newValues` has exactly the pairs `Expected`
    gives it, and every other key keeps its pairs.
  */
  lemma {:induction false} ApplySettles(es: seq<Entry>, updates: seq<(string, Option<string>)>, other: string)
    requires DistinctKeys(updates)
    ensures Settled(Apply(es, updates), updates)
    ensures (forall i :: 0 <= i < |updates| ==> updates[i].0 != other) ==>
      Only(Apply(es, updates), other) == Only(es, other)
  {
    if updates != [] {
      var p := updates[..|updates| - 1];
      var last := updates[|updates| - 1];
      var before := Apply(es, p);
      ApplySettles(es, p, other);
      StepOnly(before, last, other);
      forall i | 0 <= i < |updates| ensures Only(Apply(es, updates), updates[i].0) == Expected(updates[i]) {
        if i < |p| {
          StepOnly(before, last, updates[i].0);
          assert p[i] == updates[i];
        }
      }
    }
  }

  lemma {:induction false} SettledFixed(es: seq<Entry>, updates: seq<(string, Option<string>)>)
    requires Settled(es, updates)
    ensures Apply(es, updates) == es
  {
    if updates != [] {
      var p := updates[..|updates| - 1];
      var last := updates[|updates| - 1];
      assert Settled(es, p) by {
        forall i | 0 <= i < |p| ensures Only(es, p[i].0) == Expected(p[i]) {
          assert p[i] == updates[i];
        }
      }
      SettledFixed(es, p);
      assert Only(es, last.0) == Expected(last);
      if Truthy(last.1) {
        SetEntrySettled(es, last.0, last.1.value);
      } else {
        RemoveAbsent(es, last.0);
      }
    }
  }

  /** What the loop leaves for each key: the new value, no pair, or the old pairs. */
  lemma ApplyByKey(es: seq<Entry>, updates: seq<(string, Option<string>)>, name: string)
    requires DistinctKeys(updates)
    ensures forall i :: 0 <= i < |updates| && updates[i].0 == name && Truthy(updates[i].1) ==>
      Lookup(Apply(es, updates), name) == updates[i].1 && |Only(Apply(es, updates), name)| == 1
    ensures forall i :: 0 <= i < |updates| && updates[i].0 == name && !Truthy(updates[i].1) ==>
      Lookup(Apply(es, updates), name) == None && Only(Apply(es, updates), name) == []
    ensures (forall i :: 0 <= i < |updates| ==> updates[i].0 != name) ==>
      Only(Apply(es, updates), name) == Only(es, name) && Lookup(Apply(es, updates), name) == Lookup(es, name)
  {
    ApplySettles(es, updates, name);
  }

  /** Applying the same new values twice changes nothing more than applying them once. */
  lemma ApplyIdempotent(es: seq<Entry>, updates: seq<(string, Option<string>)>)
    requires DistinctKeys(updates)
    ensures Apply(Apply(es, updates), updates) == Apply(es, updates)
  {
    ApplySettles(es, updates, "");
    SettledFixed(Apply(es, updates), updates);
  }

  /**
    `getPageUrl`: copy the current parameters, set or delete each key of
    `newValues` in turn, and put the path before the query text. The record
    `newValues` is given as its pairs in enumeration order.
  */
  method GetPageUrl(pathname: string, searchParams: SearchParams, newValues: seq<(string, Option<string>)>)
    returns (url: string)
    ensures url == pathname + "?" + Serialize(Apply(searchParams.entries, newValues))
  {
    var params := new SearchParams(searchParams.entries);
    for i := 0 to |newValues|
      invariant params.entries == Apply(searchParams.entries, newValues[..i])
    {
      var (key, value) := newValues[i];
      assert newValues[..i + 1][..i] == newValues[..i];
      if Truthy(value) {
        params.Set(key, value.value);
      } else {
        params.Delete(key);
      }
    }
    assert newValues[..|newValues|] == newValues;
    url := pathname + "?" + params.ToString();
  }
}
