/** src/Logging/CompoundLogger.cs: a logger that forwards every message to a
    list of sub-loggers. Loggers are runtime values compared by reference, so
    a logger is a `Value` and `Null` is the null reference; `Self` is the
    value the compound logger itself stands for. */
module CompoundLoggers {
  import opened Wrappers
  import opened Runtime

  /** The `LogLevel` flags, as a number. */
  type LogLevel = nat

  predicate NoDuplicates(s: seq<Value>)
  {
    forall i, j :: 0 <= i < j < |s| ==> s[i] != s[j]
  }

  /** Null and the compound logger itself are never registered (lines 38-41
      and 54-57). */
  predicate Ignored(logger: Value, self: Value)
  {
    logger.Null? || logger == self
  }

  /** The list after `AddLogger(logger)` (lines 36-50): a logger that is not
      ignored and not yet present is appended; otherwise the list stays. */
  function Added(s: seq<Value>, logger: Value, self: Value): (r: seq<Value>)
    ensures forall x :: x in r <==> x in s || (x == logger && !Ignored(logger, self))
    ensures |s| <= |r| <= |s| + 1 && r[..|s|] == s
    ensures (Ignored(logger, self) || logger in s) <==> r == s
    ensures NoDuplicates(s) ==> NoDuplicates(r)
  {
    if Ignored(logger, self) || logger in s then s else s + [logger]
  }

  /** `List.Remove`: drops the first occurrence of `x`, if any. */
  function RemoveFirst(s: seq<Value>, x: Value): (r: seq<Value>)
    ensures x !in s ==> r == s
    ensures x in s ==> |r| == |s| - 1
    ensures multiset(r) == multiset(s) - multiset{x}
  {
    if s == [] then []
    else if s[0] == x then
      assert s == [s[0]] + s[1..];
      s[1..]
    else
      assert s == [s[0]] + s[1..];
      [s[0]] + RemoveFirst(s[1..], x)
  }

  lemma NoDuplicatesCons(a: Value, t: seq<Value>)
    ensures NoDuplicates([a] + t) <==> a !in t && NoDuplicates(t)
  {
    var s := [a] + t;
    if NoDuplicates(s) {
      forall i, j | 0 <= i < j < |t| ensures t[i] != t[j] {
        assert t[i] == s[i + 1] && t[j] == s[j + 1];
      }
      forall j | 0 <= j < |t| ensures t[j] != a {
        assert s[0] == a && t[j] == s[j + 1];
      }
    }
    if a !in t && NoDuplicates(t) {
      forall i, j | 0 <= i < j < |s| ensures s[i] != s[j] {
        if i == 0 {
          assert s[j] == t[j - 1];
        } else {
          assert s[i] == t[i - 1] && s[j] == t[j - 1];
        }
      }
    }
  }

  /** In a list without duplicates, removing `x` removes every occurrence of
      it and keeps the list free of duplicates. */
  lemma {:induction false} RemoveFirstNoDuplicates(s: seq<Value>, x: Value)
    requires NoDuplicates(s)
    ensures NoDuplicates(RemoveFirst(s, x))
    ensures forall y :: y in RemoveFirst(s, x) <==> y in s && y != x
  {
    if s != [] {
      assert s == [s[0]] + s[1..];
      NoDuplicatesCons(s[0], s[1..]);
      if s[0] != x {
        RemoveFirstNoDuplicates(s[1..], x);
        NoDuplicatesCons(s[0], RemoveFirst(s[1..], x));
      }
    }
  }

  /** The list after `RemoveLogger(logger)` (lines 52-66). */
  function Removed(s: seq<Value>, logger: Value, self: Value): (r: seq<Value>)
    ensures Ignored(logger, self) || logger !in s ==> r == s
    ensures !Ignored(logger, self) && logger in s ==> |r| == |s| - 1
    ensures multiset(r) <= multiset(s)
  {
    if Ignored(logger, self) then s
    else if logger in s then RemoveFirst(s, logger)
    else s
  }

  /** Removing from a duplicate-free list takes exactly that logger out and
      keeps the list duplicate-free. */
  lemma RemovedMeaning(s: seq<Value>, logger: Value, self: Value)
    requires NoDuplicates(s)
    ensures NoDuplicates(Removed(s, logger, self))
    ensures forall y :: y in Removed(s, logger, self) <==> y in s && (y != logger || Ignored(logger, self))
  {
    RemoveFirstNoDuplicates(s, logger);
  }

  lemma {:induction false} RemoveFirstAppended(s: seq<Value>, x: Value)
    requires x !in s
    ensures RemoveFirst(s + [x], x) == s
  {
    if s != [] {
      assert (s + [x])[0] == s[0];
      assert (s + [x])[1..] == s[1..] + [x];
      RemoveFirstAppended(s[1..], x);
    }
  }

  /** Adding a logger that was absent and removing it again restores the
      original list, order included. */
  lemma AddThenRemove(s: seq<Value>, logger: Value, self: Value)
    requires logger !in s
    ensures Removed(Added(s, logger, self), logger, self) == s
  {
    if !Ignored(logger, self) {
      RemoveFirstAppended(s, logger);
    }
  }

  class CompoundLogger {
    /** The value `this` stands for. */
    const Self: Value
    const Level: LogLevel
    var loggers: seq<Value>

    /** No logger is registered twice, and neither null nor the compound
        logger itself is ever registered. */
    ghost predicate Valid()
      reads this
    {
      NoDuplicates(loggers) && Null !in loggers && Self !in loggers
    }

    /** The constructor (lines 12-16); `level` is the core module's log level. */
    constructor(self: Value, level: LogLevel)
      ensures Valid() && Self == self && Level == level && loggers == []
    {
      Self := self;
      Level := level;
      loggers := [];
    }

    /** `Log` (lines 18-34): every sub-logger is called once with the
        message, in list order; `deliver` is the outcome of that call. A
        failing sub-logger does not keep the later ones from being called,
        and no failure escapes. The pair list records each call made. */
    method Log(msg: Value, level: LogLevel, deliver: (Value, Value, LogLevel) -> Outcome)
      returns (calls: seq<(Value, Outcome)>)
      ensures |calls| == |loggers|
      ensures forall i :: 0 <= i < |loggers| ==> calls[i] == (loggers[i], deliver(loggers[i], msg, level))
    {
      calls := [];
      for i := 0 to |loggers|
        invariant |calls| == i
        invariant forall k :: 0 <= k < i ==> calls[k] == (loggers[k], deliver(loggers[k], msg, level))
      {
        var logger := loggers[i];
        var outcome := deliver(logger, msg, level);
        // a failure is caught and ignored
        calls := calls + [(logger, outcome)];
      }
    }

    method AddLogger(logger: Value)
      requires Valid()
      modifies this
      ensures Valid()
      ensures loggers == Added(old(loggers), logger, Self)
    {
      if logger.Null? || logger == Self {
        return;
      }
      if logger !in loggers {
        loggers := loggers + [logger];
      }
    }

    method RemoveLogger(logger: Value)
      requires Valid()
      modifies this
      ensures Valid()
      ensures loggers == Removed(old(loggers), logger, Self)
    {
      if logger.Null? || logger == Self {
        return;
      }
      RemovedMeaning(loggers, logger, Self);
      if logger in loggers {
        loggers := RemoveFirst(loggers, logger);
      }
    }
  }
}
