/** The scrape counters of src/metrics.rs. */
module ScrapeMetrics {
  import opened Wrappers
  import opened Models

  /** The number of successful cycles in a history of cycle outcomes. */
  function Successes(outcomes: seq<bool>): nat {
    if outcomes == [] then 0
    else Successes(outcomes[..|outcomes| - 1]) + (if outcomes[|outcomes| - 1] then 1 else 0)
  }

  /** A history never holds more successes than cycles. */
  lemma {:induction false} SuccessesBounded(outcomes: seq<bool>)
    ensures Successes(outcomes) <= |outcomes|
    ensures Successes(outcomes) == |outcomes| <==> forall i :: 0 <= i < |outcomes| ==> outcomes[i]
    ensures Successes(outcomes) == 0 <==> forall i :: 0 <= i < |outcomes| ==> !outcomes[i]
  {
    if outcomes != [] {
      var init := outcomes[..|outcomes| - 1];
      SuccessesBounded(init);
      assert forall i :: 0 <= i < |init| ==> init[i] == outcomes[i];
    }
  }

  /** Successes of a concatenated history add up. */
  lemma {:induction false} SuccessesAppend(a: seq<bool>, b: seq<bool>)
    ensures Successes(a + b) == Successes(a) + Successes(b)
    decreases |b|
  {
    if b == [] {
      assert a + b == a;
    } else {
      var b' := b[..|b| - 1];
      assert (a + b)[..|a + b| - 1] == a + b';
      assert (a + b)[|a + b| - 1] == b[|b| - 1];
      SuccessesAppend(a, b');
    }
  }

  /** The shared `Metrics`: three counters and the time of the last finished cycle. The
      ghost `outcomes` is the history of recorded cycles the counters summarise. */
  class Metrics {
    var totalScrapes: nat
    var successfulScrapes: nat
    var failedScrapes: nat
    var lastScrapeTime: Option<Timestamp>
    ghost var outcomes: seq<bool>

    ghost predicate Valid()
      reads this
    {
      && totalScrapes == |outcomes|
      && successfulScrapes == Successes(outcomes)
      && failedScrapes == |outcomes| - Successes(outcomes)
      && (lastScrapeTime.Some? <==> outcomes != [])
    }

    /** `Metrics::new()`: all counters zero and no scrape yet. */
    constructor ()
      ensures Valid() && outcomes == []
      ensures totalScrapes == 0 && successfulScrapes == 0 && failedScrapes == 0
      ensures lastScrapeTime == None
    {
      totalScrapes := 0;
      successfulScrapes := 0;
      failedScrapes := 0;
      lastScrapeTime := None;
      outcomes := [];
    }

    /** `record_scrape(success)` at clock reading `now`. */
    method RecordScrape(success: bool, now: Timestamp)
      requires Valid()
      modifies this
      ensures Valid()
      ensures outcomes == old(outcomes) + [success]
      ensures totalScrapes == old(totalScrapes) + 1
      ensures successfulScrapes == old(successfulScrapes) + (if success then 1 else 0)
      ensures failedScrapes == old(failedScrapes) + (if success then 0 else 1)
      ensures lastScrapeTime == Some(now)
    {
      SuccessesBounded(outcomes);
      SuccessesAppend(outcomes, [success]);
      totalScrapes := totalScrapes + 1;
      if success {
        successfulScrapes := successfulScrapes + 1;
      } else {
        failedScrapes := failedScrapes + 1;
      }
      lastScrapeTime := Some(now);
      outcomes := outcomes + [success];
    }

    /** `get_total_scrapes()`: every recorded cycle, successful or failed. */
    method TotalScrapes() returns (n: nat)
      requires Valid()
      ensures n == |outcomes| && n == successfulScrapes + failedScrapes
    {
      SuccessesBounded(outcomes);
      n := totalScrapes;
    }

    /** `get_successful_scrapes()` */
    method SuccessfulScrapes() returns (n: nat)
      requires Valid()
      ensures n == Successes(outcomes) && n <= |outcomes|
    {
      SuccessesBounded(outcomes);
      n := successfulScrapes;
    }

    /** `get_failed_scrapes()` */
    method FailedScrapes() returns (n: nat)
      requires Valid()
      ensures n + Successes(outcomes) == |outcomes|
    {
      SuccessesBounded(outcomes);
      n := failedScrapes;
    }

    /** `get_last_scrape_time()`: None until the first cycle is recorded. */
    method LastScrapeTime() returns (t: Option<Timestamp>)
      requires Valid()
      ensures t == lastScrapeTime
      ensures t.Some? <==> outcomes != []
    {
      t := lastScrapeTime;
    }
  }

  /** The sequence of the metrics unit test: after one success and one failure the
      counters read 2, 1, 1 and a last scrape time is present. */
  method RecordingExample(now1: Timestamp, now2: Timestamp) returns (total: nat, ok: nat, failed: nat, last: Option<Timestamp>)
    ensures total == 2 && ok == 1 && failed == 1 && last == Some(now2)
  {
    var m := new Metrics();
    m.RecordScrape(true, now1);
    m.RecordScrape(false, now2);
    assert m.outcomes == [true, false];
    assert Successes([true, false]) == 1 by {
      assert [true, false][..1] == [true];
      assert [true][..0] == [];
    }
    total := m.TotalScrapes();
    ok := m.SuccessfulScrapes();
    failed := m.FailedScrapes();
    last := m.LastScrapeTime();
  }
}
