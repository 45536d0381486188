/**
 The note lifecycle: how a note's stage reacts to the two operations that
 touch it. Moving promotes capture to organize; replacing highlights
 promotes capture and organize to distill. Nothing else changes the stage,
 and nothing here produces express.
 */
module Lifecycle {
  import opened Models

  /** Stage after `move_to_container`. The target container is not
      consulted: moving to no container does not return a note to capture. */
  function StageAfterMove(s: Stage): (r: Stage)
    ensures StageRank(r) == if StageRank(s) < 1 then 1 else StageRank(s)
    ensures r == Express ==> s == Express
  {
    if s == Capture then Organize else s
  }

  /** Stage after `update_highlights`, whatever the new list is. */
  function StageAfterHighlights(s: Stage): (r: Stage)
    ensures StageRank(r) == if StageRank(s) < 2 then 2 else StageRank(s)
    ensures r == Express ==> s == Express
  {
    if s == Capture || s == Organize then Distill else s
  }

  /** The operations of the note service, as far as the stage is concerned. */
  datatype Event = Move | SetHighlights | Edit

  /** Stage after one event; a generic field update never touches the stage. */
  function Next(s: Stage, e: Event): (r: Stage)
    ensures StageRank(s) <= StageRank(r)
    ensures r == Express ==> s == Express
  {
    match e
    case Move => StageAfterMove(s)
    case SetHighlights => StageAfterHighlights(s)
    case Edit => s
  }

  /** Stage after a run of events, applied left to right. */
  function Run(s: Stage, events: seq<Event>): (r: Stage)
    decreases |events|
  {
    if events == [] then s else Run(Next(s, events[0]), events[1..])
  }

  /** No run of operations ever lowers the stage. */
  lemma {:induction false} RunMonotone(s: Stage, events: seq<Event>)
    ensures StageRank(s) <= StageRank(Run(s, events))
    decreases |events|
  {
    if events != [] {
      RunMonotone(Next(s, events[0]), events[1..]);
    }
  }

  /** Express is only ever reached from express: a note created at capture
      never gets there through this service. */
  lemma {:induction false} RunNeverReachesExpress(s: Stage, events: seq<Event>)
    requires s != Express
    ensures Run(s, events) != Express
    decreases |events|
  {
    if events != [] {
      RunNeverReachesExpress(Next(s, events[0]), events[1..]);
    }
  }

  /** Once a note contains a highlight update, its stage is at least distill. */
  lemma {:induction false} RunWithHighlightsIsDistilled(s: Stage, events: seq<Event>)
    requires SetHighlights in events
    ensures StageRank(Run(s, events)) >= 2
    decreases |events|
  {
    if events[0] == SetHighlights {
      RunMonotone(Next(s, events[0]), events[1..]);
    } else {
      RunWithHighlightsIsDistilled(Next(s, events[0]), events[1..]);
    }
  }

  /** Repeating a move or a highlight update changes nothing further. */
  lemma PromotionsIdempotent(s: Stage)
    ensures StageAfterMove(StageAfterMove(s)) == StageAfterMove(s)
    ensures StageAfterHighlights(StageAfterHighlights(s)) == StageAfterHighlights(s)
    ensures StageAfterMove(StageAfterHighlights(s)) == StageAfterHighlights(s)
  {
  }
}
