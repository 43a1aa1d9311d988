/**
 * The screening watcher: the process-wide set of senders already seen as
 * pending screening, and `process`, which decides on each inbound frame
 * whether to refresh that set and whether to push a notification.
 */
module Screening {
  import opened Wrappers
  import opened Text

  /** The two fields the push API is sent: `title` and `message`. */
  datatype Notification = Notification(title: string, body: string)

  /**
   * `f'{n} sender{"s" * (n != 1)} to be screened'`: the digits of `n`, then a
   * non-digit, so that the count can be read back from the front.
   */
  function Title(n: nat): (r: string)
    ensures |r| > |Decimal(n)| && r[..|Decimal(n)|] == Decimal(n) && !IsDigit(r[|Decimal(n)|])
  {
    Decimal(n) + " sender" + (if n != 1 then "s" else "") + " to be screened"
  }

  /** A title announces exactly the count it was made from. */
  lemma TitleCountRoundTrip(n: nat)
    ensures TitleCount(Title(n)) == n
  {
    var rest := " sender" + (if n != 1 then "s" else "") + " to be screened";
    assert Title(n) == Decimal(n) + rest;
    LeadingDigitsOf(Decimal(n), rest);
    DecimalRoundTrip(n);
  }

  /** The count a title announces: the number its leading digits spell. */
  function TitleCount(title: string): nat
  {
    DigitsValue(LeadingDigits(title))
  }

  /** The word is singular for one sender and plural for every other count, zero included. */
  lemma TitleWording(n: nat)
    ensures n == 1 ==> Title(n) == "1 sender to be screened"
    ensures n != 1 ==> Title(n) == Decimal(n) + " senders to be screened"
  {
    if n == 1 {
      assert Decimal(1) == "1";
    }
  }

  /** The two boundary cases, written out. */
  lemma TitleExamples()
    ensures Title(1) == "1 sender to be screened"
    ensures Title(3) == "3 senders to be screened"
  {
    assert Decimal(1) == "1";
    assert Decimal(3) == "3";
  }

  /**
   * What one call of `process` may do, as a relation between the set before
   * (`previous`) and after (`current`) and the notification sent, if any.
   * `hasMessage` is whether the frame has a `message` key; `markerPresent`
   * whether that fragment holds the element with id `clearances_button`;
   * `snapshot` is what the session reports as pending at that moment.
   */
  ghost predicate Processed(previous: set<string>, hasMessage: bool, markerPresent: bool,
                            snapshot: set<string>, current: set<string>, note: Option<Notification>)
  {
    if hasMessage && markerPresent then
      && current == snapshot
      && (note.Some? <==> snapshot - previous != {})
      && (note.Some? ==> note.value.body in snapshot - previous && note.value.title == Title(|snapshot|))
    else
      current == previous && note == None
  }

  /** Holder of the set of senders already seen as pending screening. */
  class Screener {
    var unscreened: set<string>

    /** The set starts as the snapshot taken at start-up. */
    constructor (initial: set<string>)
      ensures unscreened == initial
    {
      unscreened := initial;
    }

    /**
     * `process(msg)`: on a frame whose fragment carries the marker, replace the
     * set by the fresh snapshot and, when the snapshot has senders not seen
     * before, announce one of them, under a title that counts the whole snapshot.
     */
    method Process(hasMessage: bool, markerPresent: bool, snapshot: set<string>)
      returns (note: Option<Notification>)
      modifies this
      ensures !(hasMessage && markerPresent) ==> unscreened == old(unscreened) && note == None
      ensures hasMessage && markerPresent ==> unscreened == snapshot
      ensures note.Some? <==> hasMessage && markerPresent && snapshot - old(unscreened) != {}
      ensures note.Some? ==> note.value.body in snapshot - old(unscreened)
      ensures note.Some? ==> note.value.title == Title(|snapshot|)
      // the five clauses above, restated as one relation for the lemmas below
      ensures Processed(old(unscreened), hasMessage, markerPresent, snapshot, unscreened, note)
    {
      note := None;
      if hasMessage && markerPresent {
        var n := |snapshot|;
        var newUnscreened := snapshot - unscreened;
        unscreened := snapshot;
        if newUnscreened != {} {
          var sender :| sender in newUnscreened;
          note := Some(Notification(Title(n), sender));
        }
      }
    }
  }

  /** The same snapshot reported twice in a row: the second event announces nothing. */
  lemma DedupIdempotent(previous: set<string>, snapshot: set<string>,
                        middle: set<string>, first: Option<Notification>,
                        current: set<string>, second: Option<Notification>)
    requires Processed(previous, true, true, snapshot, middle, first)
    requires Processed(middle, true, true, snapshot, current, second)
    ensures second == None && current == snapshot
  {
    assert snapshot - snapshot == {};
  }

  /** A notification always names a sender of the snapshot and announces the snapshot's size, at least one. */
  lemma NotificationAnnounces(previous: set<string>, hasMessage: bool, markerPresent: bool,
                              snapshot: set<string>, current: set<string>, note: Option<Notification>)
    requires Processed(previous, hasMessage, markerPresent, snapshot, current, note)
    requires note.Some?
    ensures note.value.body in current && note.value.body !in previous
    ensures |snapshot| >= 1 && TitleCount(note.value.title) == |snapshot|
  {
    assert note.value.body in snapshot;
    TitleCountRoundTrip(|snapshot|);
  }

  /** Previously {a}, now {a, b, c}: one notification, titled for three, naming b or c. */
  lemma BurstOfNewSenders(a: string, b: string, c: string,
                          current: set<string>, note: Option<Notification>)
    requires a != b && b != c && a != c
    requires Processed({a}, true, true, {a, b, c}, current, note)
    ensures note.Some? && note.value.title == "3 senders to be screened"
    ensures note.value.body == b || note.value.body == c
  {
    assert b in {a, b, c} - {a};
    assert |{a, b, c}| == 3;
    TitleExamples();
  }

  /** Two detected events with the same snapshot, run on the class: the second one is silent. */
  method ProcessTwice(s: Screener, snapshot: set<string>)
    returns (first: Option<Notification>, second: Option<Notification>)
    modifies s
    ensures s.unscreened == snapshot && second == None
    ensures first.Some? <==> snapshot - old(s.unscreened) != {}
  {
    first := s.Process(true, true, snapshot);
    second := s.Process(true, true, snapshot);
  }
}
