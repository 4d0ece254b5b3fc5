/**
 * The request history: for each lookup key (country code followed by the
 * national number) the outcome of the last recorded attempt and how many
 * attempts have been recorded. It is a JSON document on disk in the
 * original; here it is a map held by a `RequestLog` object.
 */
module History {
  import opened Wrappers

  /** The three status strings the handler writes. */
  datatype Status = Success | Private | Error {

    /** The string stored in the log's `status` field. */
    function Tag(): string {
      match this
      case Success => "success"
      case Private => "private"
      case Error => "error"
    }

    /** `status in ["private", "error"]`: a past outcome that is never retried. */
    predicate Sticky() {
      this != Success
    }
  }

  /** One entry of the log: `{status, message, timestamp, attempts}`. */
  datatype Record = Record(status: Status, message: string, timestamp: string, attempts: nat)

  type Log = map<string, Record>

  /**
   * `log.get(key, {}).get("attempts", 0)`: zero for a key never recorded,
   * and in a well-formed log only for such a key.
   */
  function Attempts(log: Log, key: string): (n: nat)
    ensures key !in log ==> n == 0
    ensures WellFormed(log) ==> (n == 0 <==> key !in log)
  {
    if key in log then log[key].attempts else 0
  }

  /** Every recorded entry counts at least one attempt. */
  ghost predicate WellFormed(log: Log) {
    forall k :: k in log ==> log[k].attempts >= 1
  }

  /**
   * The log after `register_request(key, status, message)` at time `now`:
   * the entry for `key` is replaced by the new status and message with one
   * more attempt than before, and no other entry changes.
   */
  function Registered(log: Log, key: string, status: Status, message: string, now: string): (r: Log)
    ensures r.Keys == log.Keys + {key}
    ensures r[key].status == status && r[key].message == message && r[key].timestamp == now
    ensures Attempts(r, key) == Attempts(log, key) + 1
    ensures forall k :: k in log && k != key ==> r[k] == log[k]
    ensures WellFormed(log) ==> WellFormed(r)
  {
    log[key := Record(status, message, now, Attempts(log, key) + 1)]
  }

  /** The history store: the log document and the two operations on it. */
  class RequestLog {
    var entries: Log

    /** The log file created empty at start-up when none exists. */
    constructor ()
      ensures entries == map[]
    {
      entries := map[];
    }

    /** `check_request_history(key)`: the stored entry, or `None`; reading never changes the log. */
    function Lookup(key: string): (r: Option<Record>)
      reads this
      ensures r.Some? <==> key in entries
      ensures r.Some? ==> r.value == entries[key]
    {
      if key in entries then Some(entries[key]) else None
    }

    /** `register_request(key, status, message)`: a read-modify-write of the entry for `key`. */
    method Register(key: string, status: Status, message: string, now: string)
      modifies this
      ensures entries == Registered(old(entries), key, status, message, now)
    {
      var previous := Attempts(entries, key);
      entries := entries[key := Record(status, message, now, previous + 1)];
    }
  }
}
