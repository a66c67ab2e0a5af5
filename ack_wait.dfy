/** The shared read buffer and the acknowledgment waits that poll it.

    The reader task appends everything the modem sends to one shared text
    buffer. A wait clears it and then polls it for a marker once per
    millisecond. Without threads, what the reader appends is an oracle: for
    each poll, the text that arrived since the previous poll and whether the
    waiter's blocking `lock()` on the buffer returned `Ok`. It returns `Err`
    only when the mutex is poisoned; the oracle lets that happen at any poll,
    independently of the others, which allows more than a real poisoned mutex
    (it stays poisoned). Past the end of the oracle nothing more arrives and
    every lock succeeds. */
module AckWait {
  import opened Text

  /** The `Arc<Mutex<String>>` read buffer. */
  class ReadBuffer {
    var text: string

    constructor ()
      ensures text == ""
    {
      text := "";
    }
  }

  /** One poll: what the reader appended just before it, and whether the
      waiter's `lock()` returned `Ok` (`false` stands for a poisoned mutex). */
  datatype Poll = Poll(arrived: string, locked: bool)

  /** The marker every worker in the handlers waits for. */
  const OkMarker: string := "OK"

  function PollAt(polls: seq<Poll>, k: nat): Poll {
    if k < |polls| then polls[k] else Poll("", true)
  }

  /** The buffer's text at poll `k` of a wait that began on a cleared buffer. */
  function Seen(polls: seq<Poll>, k: nat): string
    decreases k
  {
    if k == 0 then PollAt(polls, 0).arrived else Seen(polls, k - 1) + PollAt(polls, k).arrived
  }

  /** Poll `k` acquired the lock and found `msg` in the buffer. */
  predicate Hit(polls: seq<Poll>, msg: string, k: nat) {
    PollAt(polls, k).locked && Contains(Seen(polls, k), msg)
  }

  /** The first poll in `k..n` that finds `msg`, if any. */
  function FirstHitFrom(polls: seq<Poll>, msg: string, k: nat, n: nat): (r: Option<nat>)
    ensures r.Some? ==> k <= r.value < n && Hit(polls, msg, r.value)
    ensures r.Some? ==> forall j :: k <= j < r.value ==> !Hit(polls, msg, j)
    ensures r.None? ==> forall j :: k <= j < n ==> !Hit(polls, msg, j)
    decreases n - k
  {
    if k >= n then None
    else if Hit(polls, msg, k) then Some(k)
    else FirstHitFrom(polls, msg, k + 1, n)
  }

  /** The first of the polls numbered `0..n` that finds `msg`, if any. */
  function FirstHit(polls: seq<Poll>, msg: string, n: nat): Option<nat> {
    FirstHitFrom(polls, msg, 0, n)
  }

  /** The buffer's text when a wait of at most `n` polls ends: at the poll that
      succeeded, or at the last poll. */
  function WaitText(polls: seq<Poll>, msg: string, n: nat): string
    requires n >= 1
  {
    match FirstHit(polls, msg, n)
    case Some(k) => Seen(polls, k)
    case None => Seen(polls, n - 1)
  }

  /** The buffer only grows during a wait. */
  lemma {:induction false} SeenGrows(polls: seq<Poll>, j: nat, k: nat)
    requires j <= k
    ensures |Seen(polls, j)| <= |Seen(polls, k)|
    ensures Seen(polls, k) == Seen(polls, j) + Seen(polls, k)[|Seen(polls, j)|..]
    decreases k - j
  {
    if j < k {
      SeenGrows(polls, j, k - 1);
    }
  }

  /** A marker once seen stays seen: every later poll that gets the lock
      succeeds too, so the wait cannot miss it. */
  lemma HitPersists(polls: seq<Poll>, msg: string, j: nat, k: nat)
    requires j <= k && Hit(polls, msg, j) && PollAt(polls, k).locked
    ensures Hit(polls, msg, k)
  {
    SeenGrows(polls, j, k);
    ContainsExtend(Seen(polls, j), Seen(polls, k)[|Seen(polls, j)|..], msg);
  }

  /** No false positive: if the marker never shows up in the buffer before the
      wait's last poll, the wait times out. */
  lemma NoMarkerTimesOut(polls: seq<Poll>, msg: string, n: nat)
    requires n >= 1 && !Contains(Seen(polls, n - 1), msg)
    ensures FirstHit(polls, msg, n) == None
  {
    if FirstHit(polls, msg, n).Some? {
      var k := FirstHit(polls, msg, n).value;
      SeenGrows(polls, k, n - 1);
      ContainsExtend(Seen(polls, k), Seen(polls, n - 1)[|Seen(polls, k)|..], msg);
    }
  }

  /** No miss: when poll `j` finds the marker, the wait succeeds at `j` or earlier. */
  lemma MarkerSeenSucceeds(polls: seq<Poll>, msg: string, j: nat, n: nat)
    requires j < n && Hit(polls, msg, j)
    ensures FirstHit(polls, msg, n).Some? && FirstHit(polls, msg, n).value <= j
  {
  }

  /** The loop each handler's worker runs: the budget test comes first, then the
      poll; a poll whose lock fails still counts. Polls are numbered `0..budget`,
      so the wait makes at most `budget + 1` polls. */
  method WorkerWait(buffer: ReadBuffer, budget: nat, polls: seq<Poll>) returns (found: bool)
    requires buffer.text == ""
    modifies buffer
    ensures found == FirstHit(polls, OkMarker, budget + 1).Some?
    ensures buffer.text == WaitText(polls, OkMarker, budget + 1)
  {
    var timeout: nat := 0;
    while true
      invariant timeout <= budget + 1
      invariant forall j :: 0 <= j < timeout ==> !Hit(polls, OkMarker, j)
      invariant timeout == 0 ==> buffer.text == ""
      invariant timeout > 0 ==> buffer.text == Seen(polls, timeout - 1)
      decreases budget + 1 - timeout
    {
      if timeout > budget {
        found := false;
        return;
      }
      var poll := PollAt(polls, timeout);
      buffer.text := buffer.text + poll.arrived;
      assert timeout == 0 ==> buffer.text == poll.arrived;
      assert buffer.text == Seen(polls, timeout);
      if poll.locked && Contains(buffer.text, OkMarker) {
        assert Hit(polls, OkMarker, timeout);
        MarkerSeenSucceeds(polls, OkMarker, timeout, budget + 1);
        found := true;
        return;
      }
      timeout := timeout + 1;
    }
  }
}
