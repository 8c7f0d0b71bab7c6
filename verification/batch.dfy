/**
 `batchsql(commands)`: runs each command through `execute`, one after the
 other, and records a count or an error message per command. The driver is an
 oracle that supplies, for the i-th command, the event trace of its execute
 request.
 */
module Batch {
  import opened JsValues
  import opened Events
  import opened Promises
  import opened Requests
  import opened Database

  /** One `{sql, count}` or `{sql, error}` record; `count` holds whatever execute resolved to. */
  datatype BatchEntry = BatchEntry(sql: string, count: Option<Outcome>, error: Option<string>)

  /** `entry` is the record batchsql builds for `sql` once its execute promise is `p`. */
  predicate Records(entry: BatchEntry, sql: string, p: Promise<Outcome>) {
    && entry.sql == sql
    && match p
       case Resolved(v) => entry.count == Some(v) && entry.error.None?
       case Rejected(e) => entry.count.None? && entry.error == Some(e.message)
       case Pending => false
  }

  /** The execute promise of the i-th command. */
  function ExecutePromise(commands: seq<string>, traces: seq<seq<Event>>, i: nat): Promise<Outcome>
    requires |traces| == |commands| && i < |commands|
  {
    Execute(commands[i], None, traces[i]).state.promise
  }

  /** Runs the batch. `sent` lists the requests handed to the driver, in order. The batch
      promise never rejects. It resolves exactly when every execute settles, and then holds
      one record per command, in command order: a failing command is recorded and the
      commands after it still run. An execute that never settles stalls the batch there. */
  method BatchSql(commands: seq<string>, traces: seq<seq<Event>>)
    returns (sent: seq<Request>, result: Promise<seq<BatchEntry>>)
    requires |traces| == |commands|
    ensures !result.Rejected?
    ensures |sent| <= |commands|
    ensures forall i :: 0 <= i < |sent| ==> sent[i] == Execute(commands[i], None, traces[i]).request
    ensures result.Resolved? <==> forall i :: 0 <= i < |commands| ==> ExecutePromise(commands, traces, i).Settled()
    ensures result.Resolved? ==>
      && |sent| == |commands|
      && |result.value| == |commands|
      && forall i :: 0 <= i < |commands| ==> Records(result.value[i], commands[i], ExecutePromise(commands, traces, i))
    ensures result.Pending? ==>
      && 0 < |sent|
      && ExecutePromise(commands, traces, |sent| - 1).Pending?
      && forall i :: 0 <= i < |sent| - 1 ==> ExecutePromise(commands, traces, i).Settled()
  {
    var entries: seq<BatchEntry> := [];
    sent := [];
    var i := 0;
    while i < |commands|
      invariant 0 <= i <= |commands|
      invariant |entries| == i && |sent| == i
      invariant forall j :: 0 <= j < i ==> sent[j] == Execute(commands[j], None, traces[j]).request
      invariant forall j :: 0 <= j < i ==> ExecutePromise(commands, traces, j).Settled()
      invariant forall j :: 0 <= j < i ==> Records(entries[j], commands[j], ExecutePromise(commands, traces, j))
    {
      var call := Execute(commands[i], None, traces[i]);
      sent := sent + [call.request];
      match call.state.promise {
        case Pending =>
          // `await` never returns: the batch stays pending and no later command is sent
          assert !ExecutePromise(commands, traces, i).Settled();
          result := Pending;
          return;
        case Resolved(v) =>
          entries := entries + [BatchEntry(commands[i], Some(v), None)];
        case Rejected(e) =>
          entries := entries + [BatchEntry(commands[i], None, Some(e.message))];
      }
      i := i + 1;
    }
    result := Resolved(entries);
  }

  /** A batch record holds exactly one of `count` and `error`. */
  lemma RecordHasCountOrError(entry: BatchEntry, sql: string, p: Promise<Outcome>)
    requires Records(entry, sql, p)
    ensures entry.count.Some? != entry.error.Some?
  {
  }

  /** A recorded count is always a row count, as execute resolves to nothing else. */
  lemma RecordedCountIsRowCount(commands: seq<string>, traces: seq<seq<Event>>, i: nat, entry: BatchEntry)
    requires |traces| == |commands| && i < |commands|
    requires Records(entry, commands[i], ExecutePromise(commands, traces, i))
    requires entry.count.Some?
    ensures entry.count.value.Count?
  {
    ExecuteResolvesToCount(commands[i], None, traces[i]);
  }
}
