/**
 * The agent-events view: for every agent (keyed by its string form) two
 * windows of recent events, one of preparations (interactions an agent
 * intends to enact, with their valence) and one of enactions. Each window
 * keeps the most recent WindowSize entries: a new entry goes to the back,
 * and when the window grows past its size the oldest entry is dropped.
 */
module AgentEventHistory {
  import opened Interactions

  const WindowSize: nat := 20

  /** An (action, valence) pair as stored in a window. */
  datatype Entry = Entry(action: Interaction, valence: real)

  datatype Windows = Windows(preparation: seq<Entry>, enaction: seq<Entry>)

  /** The events the view listens to; any other kind of event is `Other`. */
  datatype Event =
    | Preparation(agent: string, action: Interaction, valence: real)
    | Enaction(agent: string, action: Interaction, valence: real)
    | Other

  /** Reference definition: the last `n` elements of `s` (all of them when there are fewer). */
  function LastN<T>(s: seq<T>, n: nat): seq<T> {
    if |s| <= n then s else s[|s| - n..]
  }

  /** append, then pop(0) when the window has grown past WindowSize. */
  function Push(window: seq<Entry>, e: Entry): (pushed: seq<Entry>)
    ensures |pushed| >= 1 && pushed[|pushed| - 1] == e
    ensures |window| <= WindowSize ==> pushed == LastN(window + [e], WindowSize)
  {
    var grown := window + [e];
    if |grown| > WindowSize then grown[1..] else grown
  }

  /** Pushing entries one by one into a full-or-shorter window keeps the last WindowSize of them all. */
  lemma {:induction false} PushAllKeepsLast(window: seq<Entry>, es: seq<Entry>)
    requires |window| <= WindowSize
    ensures PushAll(window, es) == LastN(window + es, WindowSize)
    decreases |es|
  {
    if es != [] {
      var w1 := Push(window, es[0]);
      PushAllKeepsLast(w1, es[1..]);
      LastNOfLastN(window + [es[0]], es[1..], WindowSize);
      calc {
        PushAll(window, es);
        PushAll(w1, es[1..]);
        LastN(LastN(window + [es[0]], WindowSize) + es[1..], WindowSize);
        LastN((window + [es[0]]) + es[1..], WindowSize);
        { assert (window + [es[0]]) + es[1..] == window + es; }
        LastN(window + es, WindowSize);
      }
    }
  }

  /** Pushing every entry of `es` in turn. */
  function PushAll(window: seq<Entry>, es: seq<Entry>): (pushed: seq<Entry>)
    ensures |window| <= WindowSize ==> |pushed| <= WindowSize
    decreases |es|
  {
    if es == [] then window else PushAll(Push(window, es[0]), es[1..])
  }

  /** Truncating before appending more does not change what the last n are. */
  lemma LastNOfLastN<T>(s: seq<T>, t: seq<T>, n: nat)
    ensures LastN(LastN(s, n) + t, n) == LastN(s + t, n)
  {
    if |s| > n {
      var u := s[|s| - n..];
      var long, short := (s + t)[|s + t| - n..], (u + t)[|u + t| - n..];
      assert |long| == |short| == n;
      assert forall i :: 0 <= i < n ==> long[i] == short[i];
    }
  }

  /** No window is longer than WindowSize. */
  predicate Bounded(history: map<string, Windows>) {
    forall k :: k in history ==> |history[k].preparation| <= WindowSize && |history[k].enaction| <= WindowSize
  }

  /** create_if_not_exists: an unknown agent gets two empty windows; a known one is left alone. */
  function Created(history: map<string, Windows>, agent: string): (created: map<string, Windows>)
    ensures agent in created
    ensures forall k :: k in history ==> k in created && created[k] == history[k]
    ensures forall k :: k in created ==> k in history || k == agent
  {
    if agent in history then history else history[agent := Windows([], [])]
  }

  /** Creating twice is creating once. */
  lemma CreatedIdempotent(history: map<string, Windows>, agent: string)
    ensures Created(Created(history, agent), agent) == Created(history, agent)
  {
  }

  /** notify: what the history becomes after one event. */
  function Notified(history: map<string, Windows>, ev: Event): (notified: map<string, Windows>)
    ensures ev.Other? ==> notified == history
    ensures !ev.Other? ==> notified.Keys == history.Keys + {ev.agent}
  {
    match ev
    case Preparation(agent, action, valence) =>
      var ws := Created(history, agent)[agent];
      history[agent := ws.(preparation := Push(ws.preparation, Entry(action, valence)))]
    case Enaction(agent, action, valence) =>
      var ws := Created(history, agent)[agent];
      history[agent := ws.(enaction := Push(ws.enaction, Entry(action, valence)))]
    case Other => history
  }

  /** A preparation event ends that agent's preparation window and leaves its enaction window as it was. */
  lemma PreparationRecorded(history: map<string, Windows>, agent: string, action: Interaction, valence: real)
    requires Bounded(history)
    ensures var after := Notified(history, Preparation(agent, action, valence));
      && agent in after
      && after[agent].preparation == LastN(Created(history, agent)[agent].preparation + [Entry(action, valence)], WindowSize)
      && after[agent].preparation[|after[agent].preparation| - 1] == Entry(action, valence)
      && after[agent].enaction == Created(history, agent)[agent].enaction
  {
  }

  /** An enaction event ends that agent's enaction window and leaves its preparation window as it was. */
  lemma EnactionRecorded(history: map<string, Windows>, agent: string, action: Interaction, valence: real)
    requires Bounded(history)
    ensures var after := Notified(history, Enaction(agent, action, valence));
      && agent in after
      && after[agent].enaction == LastN(Created(history, agent)[agent].enaction + [Entry(action, valence)], WindowSize)
      && after[agent].enaction[|after[agent].enaction| - 1] == Entry(action, valence)
      && after[agent].preparation == Created(history, agent)[agent].preparation
  {
  }

  /** Every window stays within WindowSize entries. */
  lemma NotifiedBounded(history: map<string, Windows>, ev: Event)
    requires Bounded(history)
    ensures Bounded(Notified(history, ev))
  {
  }

  /** Other agents' windows are untouched, and an event of any other kind changes nothing at all. */
  lemma NotifiedFrame(history: map<string, Windows>, ev: Event)
    ensures ev.Other? ==> Notified(history, ev) == history
    ensures !ev.Other? ==> forall k :: k != ev.agent ==>
      (k in Notified(history, ev) <==> k in history)
      && (k in history ==> Notified(history, ev)[k] == history[k])
  {
  }

  class AgentEvents {
    var history: map<string, Windows>

    ghost predicate Valid()
      reads this
    {
      Bounded(history)
    }

    constructor ()
      ensures Valid() && history == map[]
    {
      history := map[];
    }

    /** create_if_not_exists */
    method CreateIfNotExists(agent: string)
      requires Valid()
      modifies this
      ensures Valid()
      ensures history == Created(old(history), agent)
    {
      if agent !in history {
        history := history[agent := Windows([], [])];
      }
    }

    /** notify */
    method Notify(ev: Event)
      requires Valid()
      modifies this
      ensures Valid()
      ensures history == Notified(old(history), ev)
    {
      match ev {
        case Preparation(agent, action, valence) =>
          CreateIfNotExists(agent);
          var ws := history[agent];
          var window := ws.preparation + [Entry(action, valence)];
          if |window| > WindowSize {
            window := window[1..];
          }
          history := history[agent := ws.(preparation := window)];
        case Enaction(agent, action, valence) =>
          CreateIfNotExists(agent);
          var ws := history[agent];
          var window := ws.enaction + [Entry(action, valence)];
          if |window| > WindowSize {
            window := window[1..];
          }
          history := history[agent := ws.(enaction := window)];
        case Other =>
      }
      NotifiedBounded(old(history), ev);
    }
  }
}
