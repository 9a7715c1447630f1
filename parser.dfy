/** The changelog parser: one forward pass over the events of an XML pull
    parser, grouping `changelogtext` entries under the most recent
    `changelogversion` start tag.

    The XML tokenizer itself is not modelled; its output is a list of events.
    A start tag carries its name, its attributes and what reading the
    element's text would give (the text, or the failure the tokenizer raises,
    for instance on an element with child elements). A `Failure` event is the
    tokenizer raising an exception while advancing. The list ends where the
    tokenizer reports the end of the document. */
module ChangelogParser {
  import opened ChangelogModels
  import opened Whitespace

  /** An exception raised by the tokenizer: malformed markup, or a failed read. */
  datatype Fault = SyntaxError(msg: string) | ReadError(msg: string)

  /** What reading the text content of an element yields. */
  datatype Content = Text(text: string) | Unreadable(fault: Fault)

  datatype Event =
    | StartTag(name: string, attrs: map<string, string>, body: Content)
    | OtherEvent
    | Failure(fault: Fault)

  /** The outcome of parsing one raw resource. */
  datatype ParseResult =
    | Parsed(changelog: Changelog)
    | NotFound
    | Malformed(msg: string)
    | IoFail(msg: string)

  const VersionTag := "changelogversion"
  const EntryTag := "changelogtext"

  /** The value of an attribute, absent when the tag does not carry it. */
  function Attribute(attrs: map<string, string>, key: string): Option<string> {
    if key in attrs then Some(attrs[key]) else None
  }

  /** The change category named by a `type` attribute, compared without regard
      to letter case; an absent or unknown value names no category. */
  function TypeOf(attr: Option<string>): Option<ChangeType> {
    match attr
    case None => None
    case Some(v) =>
      var lower := Lower(v);
      if lower == "fix" then Some(Fix)
      else if lower == "new" then Some(New)
      else if lower == "breaking" then Some(Breaking)
      else None
  }

  /** Each category is named by exactly its word, in any letter case. */
  lemma TypeOfNames(attr: Option<string>)
    ensures TypeOf(attr) == Some(Fix) <==> attr.Some? && EqualsIgnoreCase(attr.value, "fix")
    ensures TypeOf(attr) == Some(New) <==> attr.Some? && EqualsIgnoreCase(attr.value, "new")
    ensures TypeOf(attr) == Some(Breaking) <==> attr.Some? && EqualsIgnoreCase(attr.value, "breaking")
  {
  }

  /** Every casing of the same word names the same category. */
  lemma TypeOfIgnoresCase(a: string, b: string)
    requires EqualsIgnoreCase(a, b)
    ensures TypeOf(Some(a)) == TypeOf(Some(b))
  {
    assert Lower(a) == Lower(b);
  }

  /** The release opened by a `changelogversion` tag, with no entries yet: a
      missing version name becomes the empty string, the date is copied as is. */
  function ReleaseHeader(attrs: map<string, string>): (r: Release)
    ensures r.versionName == (if "versionName" in attrs then attrs["versionName"] else "")
    ensures r.changeDate.Some? <==> "changeDate" in attrs
    ensures r.changeDate.Some? ==> r.changeDate.value == attrs["changeDate"]
    ensures r.changes == []
  {
    var name := Attribute(attrs, "versionName");
    Release(if name.Some? then name.value else "", Attribute(attrs, "changeDate"), [])
  }

  /** The entry a `changelogtext` tag contributes, none when its normalised text is empty. */
  function Entry(attrs: map<string, string>, raw: string): Option<ChangeItem> {
    var text := Normalize(raw);
    if text != [] then Some(ChangeItem(text, TypeOf(Attribute(attrs, "type")))) else None
  }

  /** An entry is kept exactly when its text is not all whitespace, and a kept
      entry has non-empty text in normal form, with the tag's category. */
  lemma EntryKept(attrs: map<string, string>, raw: string)
    ensures Entry(attrs, raw).Some? ==> Entry(attrs, raw).value.text != [] && Normalized(Entry(attrs, raw).value.text)
    ensures Entry(attrs, raw).Some? ==> Entry(attrs, raw).value.text == Normalize(raw)
    ensures Entry(attrs, raw).Some? ==> Entry(attrs, raw).value.kind == TypeOf(Attribute(attrs, "type"))
    ensures Entry(attrs, raw).None? <==> forall i | 0 <= i < |raw| :: IsSpace(raw[i])
  {
    NormalizeIsNormalized(raw);
    NormalizeEmpty(raw);
  }

  /** The exception that makes the event stop the parse, if any. */
  function FaultOf(e: Event): Option<Fault> {
    match e
    case Failure(f) => Some(f)
    case StartTag(name, _, Unreadable(f)) => if name == EntryTag then Some(f) else None
    case _ => None
  }

  /** The parse result for an escaping tokenizer exception. */
  function FaultResult(f: Fault): ParseResult {
    match f
    case SyntaxError(m) => Malformed(m)
    case ReadError(m) => IoFail(m)
  }

  // ---------------------------------------------------------------------
  // The event loop as a fold

  /** The loop's variables: releases emitted so far, the open release (if
      any) and the entries gathered for it. */
  datatype ParserState = ParserState(releases: seq<Release>, current: Option<Release>, pending: seq<ChangeItem>)

  datatype Progress = Running(state: ParserState) | Stopped(fault: Fault)

  const Start := ParserState([], None, [])

  /** The releases emitted once the open release, if any, is closed with the
      gathered entries. */
  function Flush(st: ParserState): seq<Release> {
    if st.current.Some? then st.releases + [st.current.value.(changes := st.pending)] else st.releases
  }

  /** One iteration of the event loop. */
  function Step(st: ParserState, e: Event): Progress {
    match e
    case Failure(f) => Stopped(f)
    case OtherEvent => Running(st)
    case StartTag(name, attrs, body) =>
      if name == VersionTag then
        Running(ParserState(Flush(st), Some(ReleaseHeader(attrs)), []))
      else if name == EntryTag then
        match body
        case Unreadable(f) => Stopped(f)
        case Text(raw) =>
          var item := Entry(attrs, raw);
          if item.Some? then Running(st.(pending := st.pending + [item.value])) else Running(st)
      else Running(st)
  }

  /** The event loop from state `st` over `events`. */
  function Run(st: ParserState, events: seq<Event>): Progress
    decreases |events|
  {
    if events == [] then Running(st)
    else
      match Step(st, events[0])
      case Stopped(f) => Stopped(f)
      case Running(next) => Run(next, events[1..])
  }

  /** The whole parse of an event list: the loop, then the final flush. */
  function Parse(events: seq<Event>): ParseResult {
    match Run(Start, events)
    case Running(st) => Parsed(Changelog(Flush(st)))
    case Stopped(f) => FaultResult(f)
  }

  /** Parsing the raw resource `id` of a resource table. */
  function ParseResource(resources: map<int, seq<Event>>, id: int): (r: ParseResult)
    ensures id !in resources <==> r == NotFound
  {
    if id in resources then Parse(resources[id]) else NotFound
  }

  // ---------------------------------------------------------------------
  // The imperative loop

  /** Parses the raw resource `rawResId`: looks it up, then makes one pass
      over its events with a list of finished releases, the open release and
      the entries gathered for it. */
  method ParseChangelog(resources: map<int, seq<Event>>, rawResId: int) returns (result: ParseResult)
    ensures result == ParseResource(resources, rawResId)
  {
    if rawResId !in resources {
      return NotFound;
    }
    var events := resources[rawResId];
    var releases: seq<Release> := [];
    var currentRelease: Option<Release> := None;
    var currentChanges: seq<ChangeItem> := [];
    var i := 0;
    while i < |events|
      invariant 0 <= i <= |events|
      invariant Run(ParserState(releases, currentRelease, currentChanges), events[i..]) == Run(Start, events)
    {
      assert events[i..][0] == events[i] && events[i..][1..] == events[i + 1..];
      match events[i] {
        case Failure(f) =>
          return FaultResult(f);
        case OtherEvent =>
        case StartTag(name, attrs, body) =>
          if name == VersionTag {
            if currentRelease.Some? {
              releases := releases + [currentRelease.value.(changes := currentChanges)];
            }
            currentRelease := Some(ReleaseHeader(attrs));
            currentChanges := [];
          } else if name == EntryTag {
            var kind := TypeOf(Attribute(attrs, "type"));
            match body
            case Unreadable(f) =>
              return FaultResult(f);
            case Text(raw) =>
              var text := Normalize(raw);
              if text != [] {
                currentChanges := currentChanges + [ChangeItem(text, kind)];
              }
          }
      }
      i := i + 1;
    }
    assert events[i..] == [];
    if currentRelease.Some? {
      releases := releases + [currentRelease.value.(changes := currentChanges)];
    }
    result := Parsed(Changelog(releases));
  }

  // ---------------------------------------------------------------------
  // A reference definition of the grouping, independent of the loop

  predicate IsVersionTag(e: Event) {
    e.StartTag? && e.name == VersionTag
  }

  /** The entries an event contributes on its own. */
  function EntriesOf(e: Event): seq<ChangeItem> {
    if e.StartTag? && e.name == EntryTag && e.body.Text? then
      var item := Entry(e.attrs, e.body.text);
      if item.Some? then [item.value] else []
    else []
  }

  /** The entries before the first `changelogversion` tag. */
  function LeadingEntries(events: seq<Event>): seq<ChangeItem>
    decreases |events|
  {
    if events == [] || IsVersionTag(events[0]) then []
    else EntriesOf(events[0]) + LeadingEntries(events[1..])
  }

  /** One release per `changelogversion` tag, in document order, each holding
      the entries between its tag and the next one (or the end). */
  function Grouped(events: seq<Event>): seq<Release>
    decreases |events|
  {
    if events == [] then []
    else if IsVersionTag(events[0]) then
      [ReleaseHeader(events[0].attrs).(changes := LeadingEntries(events[1..]))] + Grouped(events[1..])
    else Grouped(events[1..])
  }

  /** The number of `changelogversion` tags. */
  function CountVersionTags(events: seq<Event>): nat
    decreases |events|
  {
    if events == [] then 0
    else (if IsVersionTag(events[0]) then 1 else 0) + CountVersionTags(events[1..])
  }

  predicate Faultless(events: seq<Event>) {
    forall i | 0 <= i < |events| :: FaultOf(events[i]).None?
  }

  /** One step over an event that raises nothing: a `changelogversion` tag
      closes the open release and opens a new one, any other event adds the
      entries it contributes (possibly none) to the open release. */
  lemma StepFaultless(st: ParserState, e: Event)
    requires FaultOf(e).None?
    ensures Step(st, e).Running?
    ensures IsVersionTag(e) ==> Step(st, e).state == ParserState(Flush(st), Some(ReleaseHeader(e.attrs)), [])
    ensures !IsVersionTag(e) ==> Step(st, e).state == st.(pending := st.pending + EntriesOf(e))
  {
    if !IsVersionTag(e) && EntriesOf(e) == [] {
      assert st.(pending := st.pending + []) == st;
    }
  }

  /** What one fault-free step does to the releases the loop will emit. */
  lemma StepGroups(st: ParserState, events: seq<Event>)
    requires events != [] && FaultOf(events[0]).None?
    ensures Step(st, events[0]).Running?
    ensures var next := Step(st, events[0]).state;
      Flush(next.(pending := next.pending + LeadingEntries(events[1..]))) + Grouped(events[1..])
      == Flush(st.(pending := st.pending + LeadingEntries(events))) + Grouped(events)
  {
    StepFaultless(st, events[0]);
    if IsVersionTag(events[0]) {
      VersionStepGroups(st, events);
    } else {
      OtherStepGroups(st, events);
    }
  }

  lemma VersionStepGroups(st: ParserState, events: seq<Event>)
    requires events != [] && IsVersionTag(events[0])
    ensures var next := ParserState(Flush(st), Some(ReleaseHeader(events[0].attrs)), []);
      Flush(next.(pending := next.pending + LeadingEntries(events[1..]))) + Grouped(events[1..])
      == Flush(st.(pending := st.pending + LeadingEntries(events))) + Grouped(events)
  {
    var rest := events[1..];
    var release := ReleaseHeader(events[0].attrs).(changes := LeadingEntries(rest));
    assert LeadingEntries(events) == [];
    assert st.(pending := st.pending + []) == st;
    assert [] + LeadingEntries(rest) == LeadingEntries(rest);
    assert Grouped(events) == [release] + Grouped(rest);
    assert Flush(st) + [release] + Grouped(rest) == Flush(st) + ([release] + Grouped(rest));
  }

  lemma OtherStepGroups(st: ParserState, events: seq<Event>)
    requires events != [] && !IsVersionTag(events[0])
    ensures var next := st.(pending := st.pending + EntriesOf(events[0]));
      Flush(next.(pending := next.pending + LeadingEntries(events[1..]))) + Grouped(events[1..])
      == Flush(st.(pending := st.pending + LeadingEntries(events))) + Grouped(events)
  {
    var rest := events[1..];
    assert LeadingEntries(events) == EntriesOf(events[0]) + LeadingEntries(rest);
    assert Grouped(events) == Grouped(rest);
    FlushAppend(st, EntriesOf(events[0]), LeadingEntries(rest));
  }

  /** Adding two lists of entries in turn is adding their concatenation. */
  lemma FlushAppend(st: ParserState, a: seq<ChangeItem>, b: seq<ChangeItem>)
    ensures var next := st.(pending := st.pending + a);
      Flush(next.(pending := next.pending + b)) == Flush(st.(pending := st.pending + (a + b)))
  {
    assert st.pending + a + b == st.pending + (a + b);
  }

  /** The loop, started from any state over fault-free events, emits what the
      state already holds (with the leading entries added to the open release)
      followed by the reference grouping. */
  lemma {:induction false} RunGroups(st: ParserState, events: seq<Event>)
    requires Faultless(events)
    ensures Run(st, events).Running?
    ensures Flush(Run(st, events).state) == Flush(st.(pending := st.pending + LeadingEntries(events))) + Grouped(events)
    decreases |events|
  {
    if events == [] {
      assert st.(pending := st.pending + []) == st;
    } else {
      var rest := events[1..];
      assert Faultless(rest) by {
        forall i | 0 <= i < |rest| ensures FaultOf(rest[i]).None? { assert rest[i] == events[i + 1]; }
      }
      StepGroups(st, events);
      var next := Step(st, events[0]).state;
      assert Run(st, events) == Run(next, rest);
      RunGroups(next, rest);
    }
  }

  /** A fault-free event list parses to the reference grouping. */
  lemma ParseIsGrouped(events: seq<Event>)
    requires Faultless(events)
    ensures Parse(events) == Parsed(Changelog(Grouped(events)))
  {
    RunGroups(Start, events);
  }

  /** The loop stops with the first fault in the events, whatever its state. */
  lemma {:induction false} RunStopsAtFirstFault(st: ParserState, events: seq<Event>, k: nat)
    requires k < |events| && FaultOf(events[k]).Some?
    requires forall j | 0 <= j < k :: FaultOf(events[j]).None?
    ensures Run(st, events) == Stopped(FaultOf(events[k]).value)
    decreases k
  {
    if k > 0 {
      var rest := events[1..];
      assert forall j | 0 <= j < k - 1 :: FaultOf(rest[j]).None? by {
        forall j | 0 <= j < k - 1 ensures FaultOf(rest[j]).None? { assert rest[j] == events[j + 1]; }
      }
      assert FaultOf(events[0]).None?;
      RunStopsAtFirstFault(Step(st, events[0]).state, rest, k - 1);
    }
  }

  /** A parse fails with the first tokenizer exception in document order:
      malformed markup as `Malformed`, a read failure as `IoFail`. */
  lemma ParseFailsAtFirstFault(events: seq<Event>, k: nat)
    requires k < |events| && FaultOf(events[k]).Some?
    requires forall j | 0 <= j < k :: FaultOf(events[j]).None?
    ensures Parse(events) == FaultResult(FaultOf(events[k]).value)
  {
    RunStopsAtFirstFault(Start, events, k);
  }

  /** There is exactly one release per `changelogversion` tag. */
  lemma {:induction false} GroupedCount(events: seq<Event>)
    ensures |Grouped(events)| == CountVersionTags(events)
    decreases |events|
  {
    if events != [] {
      GroupedCount(events[1..]);
    }
  }

  /** Dropping the first event: a version tag contributes its release in front. */
  lemma GroupedTail(events: seq<Event>)
    requires events != []
    ensures CountVersionTags(events) == (if IsVersionTag(events[0]) then 1 else 0) + CountVersionTags(events[1..])
    ensures Grouped(events) == (if IsVersionTag(events[0])
      then [ReleaseHeader(events[0].attrs).(changes := LeadingEntries(events[1..]))] else []) + Grouped(events[1..])
  {
  }

  /** Counting the version tags before position `k` after dropping the first event. */
  lemma CountShift(events: seq<Event>, k: nat)
    requires 0 < k < |events|
    ensures CountVersionTags(events[..k]) == (if IsVersionTag(events[0]) then 1 else 0) + CountVersionTags(events[1..][..k - 1])
  {
    var prefix := events[..k];
    assert prefix[0] == events[0] && prefix[1..] == events[1..][..k - 1];
    GroupedTail(prefix);
  }

  /** The release of the `changelogversion` tag at position `k` comes after
      the releases of the earlier tags, takes its name and date from that tag,
      and holds exactly the entries between that tag and the next one. */
  lemma {:induction false} ReleaseOfTag(events: seq<Event>, k: nat)
    requires k < |events| && IsVersionTag(events[k])
    ensures CountVersionTags(events[..k]) < |Grouped(events)|
    ensures Grouped(events)[CountVersionTags(events[..k])]
         == ReleaseHeader(events[k].attrs).(changes := LeadingEntries(events[k + 1..]))
    decreases k
  {
    GroupedTail(events);
    if k > 0 {
      var rest := events[1..];
      CountShift(events, k);
      assert rest[k - 1] == events[k] && rest[k..] == events[k + 1..];
      ReleaseOfTag(rest, k - 1);
    } else {
      assert events[..0] == [];
    }
  }

  /** Every entry of every release has non-empty normalised text. */
  lemma {:induction false} GroupedEntriesNormalized(events: seq<Event>)
    ensures forall r <- Grouped(events), c <- r.changes :: c.text != [] && Normalized(c.text)
    decreases |events|
  {
    if events != [] {
      GroupedEntriesNormalized(events[1..]);
      LeadingEntriesNormalized(events[1..]);
    }
  }

  lemma {:induction false} LeadingEntriesNormalized(events: seq<Event>)
    ensures forall c <- LeadingEntries(events) :: c.text != [] && Normalized(c.text)
    decreases |events|
  {
    if events != [] && !IsVersionTag(events[0]) {
      LeadingEntriesNormalized(events[1..]);
      var e := events[0];
      if e.StartTag? && e.body.Text? {
        EntryKept(e.attrs, e.body.text);
      }
    }
  }

  /** Events before the first `changelogversion` tag contribute nothing: the
      entries among them are discarded. */
  lemma {:induction false} PreambleDiscarded(preamble: seq<Event>, events: seq<Event>)
    requires forall e <- preamble :: !IsVersionTag(e)
    ensures Grouped(preamble + events) == Grouped(events)
    decreases |preamble|
  {
    if preamble != [] {
      assert (preamble + events)[0] == preamble[0];
      assert (preamble + events)[1..] == preamble[1..] + events;
      PreambleDiscarded(preamble[1..], events);
    } else {
      assert preamble + events == events;
    }
  }

  /** A fault-free document without `changelogversion` tags parses to the empty changelog. */
  lemma NoVersionTagsNoReleases(events: seq<Event>)
    requires Faultless(events) && CountVersionTags(events) == 0
    ensures Parse(events) == Parsed(Changelog([]))
  {
    ParseIsGrouped(events);
    GroupedCount(events);
  }

  /** Running over a concatenation runs over each part in turn. */
  lemma {:induction false} RunAppend(st: ParserState, a: seq<Event>, b: seq<Event>)
    ensures Run(st, a + b) == (match Run(st, a) case Stopped(f) => Stopped(f) case Running(mid) => Run(mid, b))
    decreases |a|
  {
    if a == [] {
      assert a + b == b;
    } else {
      assert (a + b)[0] == a[0] && (a + b)[1..] == a[1..] + b;
      match Step(st, a[0])
      case Stopped(f) =>
      case Running(next) => RunAppend(next, a[1..], b);
    }
  }

  /** An end tag, text, comment, or a start tag of any other name changes
      nothing: removing it from a document does not change the parse. */
  lemma IgnoredEventChangesNothing(before: seq<Event>, e: Event, after: seq<Event>)
    requires e.OtherEvent? || (e.StartTag? && e.name != VersionTag && e.name != EntryTag)
    ensures Parse(before + [e] + after) == Parse(before + after)
  {
    RunAppend(Start, before, [e] + after);
    RunAppend(Start, before, after);
    assert before + [e] + after == before + ([e] + after);
    match Run(Start, before)
    case Stopped(f) =>
    case Running(mid) =>
      assert ([e] + after)[0] == e && ([e] + after)[1..] == after;
  }
}
