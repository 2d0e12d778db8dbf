/**
 * The layered configuration: explicit options, the environment, and options set after
 * the environment was added.
 */
module Configuration {

  /** The private fields of a configuration. */
  datatype Layers = Layers(options: map<string, string>, aboveEnvKeys: set<string>, useEnvironment: bool)

  datatype Op = Set(key: string, value: string) | SetAll(entries: map<string, string>) | AddEnvironment

  const EMPTY := Layers(map[], {}, false)

  function Apply(s: Layers, op: Op): Layers {
    match op
    case Set(k, v) =>
      s.(options := s.options[k := v],
         aboveEnvKeys := if s.useEnvironment then s.aboveEnvKeys + {k} else s.aboveEnvKeys)
    case SetAll(m) =>
      s.(options := s.options + m,
         aboveEnvKeys := if s.useEnvironment then s.aboveEnvKeys + m.Keys else s.aboveEnvKeys)
    case AddEnvironment => s.(aboveEnvKeys := {}, useEnvironment := true)
  }

  function Get(s: Layers, environment: map<string, string>, key: string): string {
    if s.useEnvironment && key !in s.aboveEnvKeys && key in environment then environment[key]
    else if key in s.options then s.options[key] else ""
  }

  lemma SetAllStep(s: Layers, done: map<string, string>, key: string, value: string)
    ensures Apply(Apply(s, SetAll(done)), Set(key, value)) == Apply(s, SetAll(done[key := value]))
  {
  }

  class ConfigurationStore {
    var options: map<string, string>
    var aboveEnvKeys: set<string>
    var useEnvironment: bool
    ghost var log: seq<Op>

    constructor ()
      ensures Valid() && State() == EMPTY && log == []
    {
      options, aboveEnvKeys, useEnvironment := map[], {}, false;
      log := [];
    }

    /** The three fields are what the calls made so far have left. */
    ghost predicate Valid()
      reads this
    {
      State() == Replay(log)
    }

    function State(): Layers
      reads this
    {
      Layers(options, aboveEnvKeys, useEnvironment)
    }

    method SetValue(key: string, value: string)
      requires Valid()
      modifies this
      ensures Valid() && log == old(log) + [Set(key, value)]
      ensures State() == Apply(old(State()), Set(key, value))
    {
      Logged(log, Set(key, value));
      if useEnvironment {
        aboveEnvKeys := aboveEnvKeys + {key};
      }
      options := options[key := value];
      log := log + [Set(key, value)];
    }

    /** Entry by entry, in whatever order the other map is walked; `other` may be this very configuration. */
    method SetFrom(other: ConfigurationStore)
      requires Valid()
      modifies this
      ensures Valid() && log == old(log) + [SetAll(old(other.options))]
      ensures State() == Apply(old(State()), SetAll(old(other.options)))
    {
      var entries := other.options;
      var left := entries.Keys;
      ghost var done: map<string, string> := map[];
      while left != {}
        invariant Valid() && left <= entries.Keys
        invariant done == map k | k in entries && k !in left :: entries[k]
        invariant State() == Apply(old(State()), SetAll(done))
        decreases left
      {
        var key :| key in left;
        SetAllStep(old(State()), done, key, entries[key]);
        SetValue(key, entries[key]);
        done := done[key := entries[key]];
        left := left - {key};
      }
      assert done == entries;
      Logged(old(log), SetAll(entries));
      log := old(log) + [SetAll(entries)];
    }

    method AddEnvConfiguration()
      requires Valid()
      modifies this
      ensures Valid() && log == old(log) + [AddEnvironment]
      ensures State() == Apply(old(State()), AddEnvironment)
    {
      useEnvironment := true;
      aboveEnvKeys := {};
      Logged(log, AddEnvironment);
      log := log + [AddEnvironment];
    }

    /** After any calls: the latest set of the key, or an environment layer that defines it, or "". */
    method GetValue(environment: map<string, string>, key: string) returns (value: string)
      requires Valid()
      ensures value == Lookup(log, environment, key)
    {
      LayersRefineHistory(log, environment, key);
      if useEnvironment && key !in aboveEnvKeys {
        if key in environment {
          return environment[key];
        }
      }
      value := if key in options then options[key] else "";
    }
  }

  // ---------------------------------------------------------------- history

  function Replay(log: seq<Op>): Layers {
    if log == [] then EMPTY else Apply(Replay(log[..|log| - 1]), log[|log| - 1])
  }

  lemma Logged(log: seq<Op>, op: Op)
    ensures Replay(log + [op]) == Apply(Replay(log), op)
  {
    assert (log + [op])[..|log|] == log;
  }

  /** Walk the history backwards: the latest set of the key, or an environment layer that defines it. */
  function Lookup(log: seq<Op>, environment: map<string, string>, key: string): string {
    if log == [] then ""
    else
      match log[|log| - 1]
      case Set(k, v) => if k == key then v else Lookup(log[..|log| - 1], environment, key)
      case SetAll(m) => if key in m then m[key] else Lookup(log[..|log| - 1], environment, key)
      case AddEnvironment => if key in environment then environment[key] else Lookup(log[..|log| - 1], environment, key)
  }

  /** The operation gives the key a value: it sets it, or adds an environment that has it. */
  predicate Defines(op: Op, environment: map<string, string>, key: string) {
    match op
    case Set(k, _) => k == key
    case SetAll(m) => key in m
    case AddEnvironment => key in environment
  }

  /** Told by position: the latest operation that gives the key a value decides. */
  lemma {:induction false} LookupIsLatest(log: seq<Op>, environment: map<string, string>, key: string, i: nat)
    requires i < |log| && Defines(log[i], environment, key)
    requires forall j :: i < j < |log| ==> !Defines(log[j], environment, key)
    ensures Lookup(log, environment, key)
            == match log[i] case Set(_, v) => v case SetAll(m) => m[key] case AddEnvironment => environment[key]
  {
    if i + 1 < |log| {
      LookupIsLatest(log[..|log| - 1], environment, key, i);
    }
  }

  lemma {:induction false} LookupOfUndefined(log: seq<Op>, environment: map<string, string>, key: string)
    requires forall j :: 0 <= j < |log| ==> !Defines(log[j], environment, key)
    ensures Lookup(log, environment, key) == ""
  {
    if log != [] {
      LookupOfUndefined(log[..|log| - 1], environment, key);
    }
  }

  /** Keys recorded as above the environment do have an option, and only exist once the environment is in use. */
  lemma {:induction false} AboveKeysAreOptions(log: seq<Op>)
    ensures Replay(log).aboveEnvKeys <= Replay(log).options.Keys
    ensures !Replay(log).useEnvironment ==> Replay(log).aboveEnvKeys == {}
  {
    if log != [] {
      AboveKeysAreOptions(log[..|log| - 1]);
    }
  }

  /** Options, key set and flag together answer like the whole history, for every fixed environment. */
  lemma {:induction false} LayersRefineHistory(log: seq<Op>, environment: map<string, string>, key: string)
    ensures Get(Replay(log), environment, key) == Lookup(log, environment, key)
  {
    if log != [] {
      var front := log[..|log| - 1];
      LayersRefineHistory(front, environment, key);
      AboveKeysAreOptions(front);
    }
  }
}
