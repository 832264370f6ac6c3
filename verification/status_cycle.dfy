/**
 * The check-in status of a roster record. Records store the status as free text;
 * the screen recognises three spellings and advances them in a fixed cycle.
 */
module StatusCycle {
  import opened Optionals

  /** The three statuses the screen knows, in cycle order. */
  datatype Status = CheckedIn | CheckedOut | OnBreak

  /** The text stored for each status (note the space in "On Break"). */
  function Spelling(st: Status): string {
    match st
    case CheckedIn => "CheckedIn"
    case CheckedOut => "CheckedOut"
    case OnBreak => "On Break"
  }

  /** Recognises one of the three spellings, exactly and case-sensitively. */
  function ParseStatus(s: string): (r: Optional<Status>)
    ensures r.Some? ==> Spelling(r.wrapped) == s
    ensures r.None? ==> forall st: Status :: Spelling(st) != s
  {
    if s == "CheckedIn" then Some(CheckedIn)
    else if s == "CheckedOut" then Some(CheckedOut)
    else if s == "On Break" then Some(OnBreak)
    else None
  }

  predicate IsKnown(s: string) {
    ParseStatus(s).Some?
  }

  /** Position of a status in the cycle. */
  function Ordinal(st: Status): (k: nat)
    ensures k < 3
  {
    match st
    case CheckedIn => 0
    case CheckedOut => 1
    case OnBreak => 2
  }

  /** The status at a position of the cycle, counted modulo three. */
  function AtOrdinal(k: nat): (st: Status)
    ensures Ordinal(st) == k % 3
  {
    if k % 3 == 0 then CheckedIn else if k % 3 == 1 then CheckedOut else OnBreak
  }

  /** Reference definition of the cycle: one step forward, wrapping around. */
  function Successor(st: Status): Status {
    AtOrdinal(Ordinal(st) + 1)
  }

  /**
   * The status the toggle button writes next, as the switch on the stored text:
   * CheckedIn to CheckedOut, CheckedOut to "On Break", "On Break" to CheckedIn,
   * and any other text to CheckedIn.
   */
  function NextStatus(s: string): (r: string)
    ensures IsKnown(r)
    ensures r != s
  {
    if s == "CheckedIn" then "CheckedOut"
    else if s == "CheckedOut" then "On Break"
    else if s == "On Break" then "CheckedIn"
    else "CheckedIn"
  }

  /** The text switch agrees with the cycle on statuses and sends unknown text to CheckedIn. */
  lemma NextStatusFollowsCycle(s: string)
    ensures NextStatus(s) == Spelling(match ParseStatus(s) case Some(st) => Successor(st) case None => CheckedIn)
  {
  }

  /** Three steps of the cycle lead back to the start. */
  lemma SuccessorPeriod(st: Status)
    ensures Successor(Successor(Successor(st))) == st
    ensures Successor(st) != st
  {
  }

  /** Three toggles return a recognised status to itself. */
  lemma NextStatusPeriod(s: string)
    requires IsKnown(s)
    ensures NextStatus(NextStatus(NextStatus(s))) == s
  {
    var st := ParseStatus(s).wrapped;
    NextStatusFollowsCycle(s);
    NextStatusFollowsCycle(Spelling(Successor(st)));
    NextStatusFollowsCycle(Spelling(Successor(Successor(st))));
    SuccessorPeriod(st);
  }

  /** After one toggle any text, recognised or not, cycles with period three. */
  lemma NextStatusEventuallyPeriodic(s: string)
    ensures NextStatus(NextStatus(NextStatus(NextStatus(s)))) == NextStatus(s)
  {
    NextStatusPeriod(NextStatus(s));
  }
}
