/**
 Model of the smart-home telemetry receiver: the ingestion endpoint, which
 applies the fixed threshold control rule to a posted reading and appends a
 log entry, and the read side of the dashboard callback, which turns the
 whole log into a 0/1 device-state series and a summary of the latest entry.
 */
module App {

  /** A capture-time instant. The clock read of the source becomes a parameter. */
  type Timestamp = int

  /** The temperature threshold (degrees Celsius); a reading strictly above it switches the device on. */
  const TemperatureLimit: real := 29.0
  /** The humidity threshold (percent); a reading strictly above it switches the device on. */
  const HumidityLimit: real := 72.0

  /** The placeholder text shown while the log is empty. */
  const WaitingMessage: string := "Waiting for data..."

  /** One log entry: the fields of the dictionary the endpoint appends. */
  datatype Entry = Entry(timestamp: Timestamp, temperature: real, humidity: real, deviceState: string)

  /** One accepted POST, together with the instant the endpoint read from the clock. */
  datatype Post = Post(temperature: real, humidity: real, receivedAt: Timestamp)

  /** The field values the summary line shows. */
  datatype Summary = Summary(temperature: real, humidity: real, deviceState: string)

  /** What the dashboard callback produces, without the figures themselves. */
  datatype View =
    | Waiting(message: string)
    | Dashboard(series: seq<int>, latest: Summary)

  // ---------------------------------------------------------------------
  // Control rule
  // ---------------------------------------------------------------------

  /** The control decision for one reading: "ON" or "OFF". */
  function ControlDecision(temperature: real, humidity: real): (state: string)
    ensures state == "ON" || state == "OFF"
  {
    if temperature > TemperatureLimit || humidity > HumidityLimit then "ON" else "OFF"
  }

  /** The device is switched on exactly when one of the two thresholds is strictly exceeded. */
  lemma ControlDecisionIff(temperature: real, humidity: real)
    ensures ControlDecision(temperature, humidity) == "ON" <==> temperature > 29.0 || humidity > 72.0
    ensures ControlDecision(temperature, humidity) == "OFF" <==> temperature <= 29.0 && humidity <= 72.0
  {
  }

  /** Both comparisons are strict: the thresholds themselves are "OFF", one step beyond either is "ON". */
  lemma ControlDecisionBoundary()
    ensures ControlDecision(29.0, 72.0) == "OFF"
    ensures ControlDecision(25.0, 50.0) == "OFF"
    ensures ControlDecision(30.0, 50.0) == "ON"
    ensures ControlDecision(20.0, 75.0) == "ON"
  {
  }

  /** A warmer or more humid reading never turns an "ON" decision into "OFF". */
  lemma ControlDecisionMonotone(t: real, h: real, t': real, h': real)
    requires t <= t' && h <= h'
    ensures ControlDecision(t, h) == "ON" ==> ControlDecision(t', h') == "ON"
  {
  }

  // ---------------------------------------------------------------------
  // Log entries and the log invariant
  // ---------------------------------------------------------------------

  /** The entry the endpoint builds for one post. */
  function EntryFor(p: Post): (e: Entry)
    ensures e.timestamp == p.receivedAt
    ensures e.temperature == p.temperature && e.humidity == p.humidity
    ensures Consistent(e)
  {
    Entry(p.receivedAt, p.temperature, p.humidity, ControlDecision(p.temperature, p.humidity))
  }

  /** An entry whose device state is the control rule applied to its own reading. */
  ghost predicate Consistent(e: Entry)
  {
    e.deviceState == ControlDecision(e.temperature, e.humidity)
  }

  /** Every entry of the log is consistent. */
  ghost predicate AllConsistent(log: seq<Entry>)
  {
    forall i :: 0 <= i < |log| ==> Consistent(log[i])
  }

  /** The log produced by posting `posts` in order to a freshly started process. */
  function Ingest(posts: seq<Post>): (log: seq<Entry>)
    ensures |log| == |posts|
    ensures forall i :: 0 <= i < |posts| ==> log[i] == EntryFor(posts[i])
    ensures AllConsistent(log)
    decreases |posts|
  {
    if posts == [] then []
    else Ingest(posts[..|posts| - 1]) + [EntryFor(posts[|posts| - 1])]
  }

  /** One more post appends exactly its entry to the log and leaves the earlier entries alone. */
  lemma IngestAppend(posts: seq<Post>, p: Post)
    ensures Ingest(posts + [p]) == Ingest(posts) + [EntryFor(p)]
  {
  }

  /** Appending the entry for post i to a log that ends with the first i posts' entries gives the first i + 1. */
  lemma IngestPrefixStep(before: seq<Entry>, posts: seq<Post>, i: nat)
    requires i < |posts|
    ensures (before + Ingest(posts[..i])) + [EntryFor(posts[i])] == before + Ingest(posts[..i + 1])
  {
  }

  /** The answers to the first i posts, followed by the answer to post i, are the answers to the first i + 1. */
  lemma DecisionsStep(states: seq<string>, posts: seq<Post>, state: string)
    requires |states| < |posts|
    requires forall k :: 0 <= k < |states| ==> states[k] == ControlDecision(posts[k].temperature, posts[k].humidity)
    requires state == ControlDecision(posts[|states|].temperature, posts[|states|].humidity)
    ensures forall k :: 0 <= k < |states| + 1 ==>
      (states + [state])[k] == ControlDecision(posts[k].temperature, posts[k].humidity)
  {
  }

  // ---------------------------------------------------------------------
  // Read side of the dashboard callback
  // ---------------------------------------------------------------------

  /** The plotted value of one device state: 1 for "ON", 0 for anything else. */
  function StateBit(state: string): (b: int)
    ensures b == 0 || b == 1
    ensures b == 1 <==> state == "ON"
  {
    if state == "ON" then 1 else 0
  }

  /** The device-state series, one value per entry, in log order. */
  function DeviceSeries(log: seq<Entry>): (series: seq<int>)
    ensures |series| == |log|
    ensures forall i :: 0 <= i < |log| ==> series[i] == StateBit(log[i].deviceState)
    decreases |log|
  {
    if log == [] then []
    else DeviceSeries(log[..|log| - 1]) + [StateBit(log[|log| - 1].deviceState)]
  }

  /** The field values of the summary line for one entry. */
  function SummaryOf(e: Entry): (s: Summary)
    ensures s.temperature == e.temperature && s.humidity == e.humidity
    ensures s.deviceState == e.deviceState
    ensures Consistent(e) ==> s.deviceState == ControlDecision(s.temperature, s.humidity)
  {
    Summary(e.temperature, e.humidity, e.deviceState)
  }

  /** The outputs of the dashboard callback for a given log. */
  function Render(log: seq<Entry>): (v: View)
    ensures v.Waiting? <==> log == []
    ensures v.Waiting? ==> v.message == WaitingMessage
    ensures v.Dashboard? ==> |v.series| == |log| && v.latest == SummaryOf(log[|log| - 1])
    ensures v.Dashboard? ==> v.series == DeviceSeries(log)
    ensures v.Dashboard? ==> forall i :: 0 <= i < |log| ==> v.series[i] == StateBit(log[i].deviceState)
  {
    if log == [] then Waiting(WaitingMessage)
    else Dashboard(DeviceSeries(log), SummaryOf(log[|log| - 1]))
  }

  /** On a consistent log the series reads the control rule off each entry's own reading. */
  lemma SeriesFollowsRule(log: seq<Entry>)
    requires AllConsistent(log)
    ensures forall i :: 0 <= i < |log| ==>
      (DeviceSeries(log)[i] == 1 <==> log[i].temperature > TemperatureLimit || log[i].humidity > HumidityLimit)
  {
  }

  /** After one more append, the view shows the earlier series extended by the new entry, and the new entry as the summary. */
  lemma RenderAfterAppend(log: seq<Entry>, e: Entry)
    ensures Render(log + [e]) == Dashboard(DeviceSeries(log) + [StateBit(e.deviceState)], SummaryOf(e))
  {
  }

  /** After any non-empty run of posts, the summary shows exactly the last post's reading and its decision. */
  lemma SummaryShowsLastPost(posts: seq<Post>)
    requires posts != []
    ensures Render(Ingest(posts)).Dashboard?
    ensures Render(Ingest(posts)).latest == Summary(
      posts[|posts| - 1].temperature,
      posts[|posts| - 1].humidity,
      ControlDecision(posts[|posts| - 1].temperature, posts[|posts| - 1].humidity))
  {
  }

  // ---------------------------------------------------------------------
  // The process-wide log
  // ---------------------------------------------------------------------

  /** The in-memory log shared by the ingestion endpoint and the dashboard. */
  class SensorLog {
    var log: seq<Entry>

    /** Every entry holds the decision the control rule gives for its own reading. */
    ghost predicate Valid()
      reads this
    {
      AllConsistent(log)
    }

    /** The log starts empty when the process starts. */
    constructor ()
      ensures Valid() && log == []
    {
      log := [];
    }

    /** Handles one POST: decides the device state, appends the entry, returns the decision. */
    method HandleData(temperature: real, humidity: real, now: Timestamp) returns (state: string)
      requires Valid()
      modifies this
      ensures Valid()
      ensures state == ControlDecision(temperature, humidity)
      ensures state == "ON" <==> temperature > TemperatureLimit || humidity > HumidityLimit
      ensures state == "ON" || state == "OFF"
      ensures |log| == |old(log)| + 1 && log[..|old(log)|] == old(log)
      ensures log[|log| - 1] == Entry(now, temperature, humidity, state)
      ensures log == old(log) + [EntryFor(Post(temperature, humidity, now))]
    {
      var entry := EntryFor(Post(temperature, humidity, now));
      state := entry.deviceState;
      log := log + [entry];
    }

    /** The dashboard callback: reads the log and leaves it as it is. */
    method UpdateGraphs() returns (v: View)
      requires Valid()
      ensures v == Render(log)
      ensures v.Dashboard? ==> forall i :: 0 <= i < |log| ==>
        (v.series[i] == 1 <==> log[i].temperature > TemperatureLimit || log[i].humidity > HumidityLimit)
    {
      v := Render(log);
    }
  }

  /**
   A client that posts `posts` in order to one log: whatever the log held
   before, it ends with exactly the entries `Ingest` gives for those posts,
   and each answer is the rule's decision on the corresponding reading.
   */
  method PostAll(store: SensorLog, posts: seq<Post>) returns (states: seq<string>)
    requires store.Valid()
    modifies store
    ensures store.Valid()
    ensures store.log == old(store.log) + Ingest(posts)
    ensures |states| == |posts|
    ensures forall i :: 0 <= i < |posts| ==> states[i] == ControlDecision(posts[i].temperature, posts[i].humidity)
  {
    states := [];
    for i := 0 to |posts|
      invariant store.Valid()
      invariant store.log == old(store.log) + Ingest(posts[..i])
      invariant |states| == i
      invariant forall k :: 0 <= k < i ==> states[k] == ControlDecision(posts[k].temperature, posts[k].humidity)
    {
      var state := store.HandleData(posts[i].temperature, posts[i].humidity, posts[i].receivedAt);
      IngestPrefixStep(old(store.log), posts, i);
      DecisionsStep(states, posts, state);
      states := states + [state];
    }
    assert posts[..|posts|] == posts;
  }

  /** A run of two posts against a fresh log: the answers, the log and the view are the ones the pure model gives. */
  method PostingScenario(t1: Timestamp, t2: Timestamp)
  {
    var p1, p2 := Post(25.0, 50.0, t1), Post(30.0, 50.0, t2);
    var store := new SensorLog();
    var before := store.UpdateGraphs();
    assert before == Waiting("Waiting for data...");

    var states := PostAll(store, [p1, p2]);
    assert states == ["OFF", "ON"];
    assert store.log == [EntryFor(p1), EntryFor(p2)];

    var after := store.UpdateGraphs();
    RenderAfterAppend([EntryFor(p1)], EntryFor(p2));
    assert DeviceSeries([EntryFor(p1)]) == [0];
    assert after == Dashboard([0, 1], Summary(30.0, 50.0, "ON"));
  }
}
