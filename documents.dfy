/** Changelog documents written out as a list of events, up to events the
    loop ignores (the start of the document, the end tag of each entry), and
    the round trip: parsing the document of a changelog gives the changelog
    back, provided every entry text is already in normal form. */
module ChangelogDocuments {
  import opened ChangelogModels
  import opened Whitespace
  import opened ChangelogParser

  /** The `type` attribute that names a category, none for an untyped entry. */
  function TypeAttrs(kind: Option<ChangeType>): map<string, string> {
    match kind
    case None => map[]
    case Some(Fix) => map["type" := "fix"]
    case Some(New) => map["type" := "new"]
    case Some(Breaking) => map["type" := "breaking"]
  }

  /** The attributes of a `changelogversion` tag; the date only when present. */
  function VersionAttrs(r: Release): map<string, string> {
    if r.changeDate.Some? then map["versionName" := r.versionName, "changeDate" := r.changeDate.value]
    else map["versionName" := r.versionName]
  }

  /** Each entry as a `changelogtext` start tag and its end tag. */
  function EntryEvents(items: seq<ChangeItem>): seq<Event> {
    if items == [] then []
    else [StartTag(EntryTag, TypeAttrs(items[0].kind), Text(items[0].text)), OtherEvent] + EntryEvents(items[1..])
  }

  /** A release as its start tag, its entries and its end tag. The text of a
      `changelogversion` element is never read, so its body is immaterial. */
  function ReleaseEvents(r: Release): seq<Event> {
    [ReleaseTag(r)] + EntryEvents(r.changes) + [OtherEvent]
  }

  function ReleaseTag(r: Release): Event {
    StartTag(VersionTag, VersionAttrs(r), Text(""))
  }

  function ReleasesEvents(rs: seq<Release>): seq<Event> {
    if rs == [] then [] else ReleaseEvents(rs[0]) + ReleasesEvents(rs[1..])
  }

  /** The whole document: the root element around the releases. */
  function DocumentEvents(c: Changelog): seq<Event> {
    [StartTag("changelog", map[], Text(""))] + ReleasesEvents(c.releases) + [OtherEvent]
  }

  /** Every entry text is non-empty and in normal form, as the parser emits them. */
  predicate WellFormed(c: Changelog) {
    forall r <- c.releases :: NormalEntries(r.changes)
  }

  /** Every entry text is non-empty and in normal form. */
  predicate NormalEntries(items: seq<ChangeItem>) {
    forall item <- items :: item.text != [] && Normalized(item.text)
  }

  /** Writing a category as an attribute and reading it back gives it unchanged. */
  lemma TypeAttrsRoundTrip(kind: Option<ChangeType>)
    ensures TypeOf(Attribute(TypeAttrs(kind), "type")) == kind
  {
    match kind
    case None =>
    case Some(Fix) => assert Lower("fix") == "fix";
    case Some(New) => assert Lower("new") == "new";
    case Some(Breaking) => assert Lower("breaking") == "breaking";
  }

  /** The header read from a written `changelogversion` tag is the release without its entries. */
  lemma VersionAttrsRoundTrip(r: Release)
    ensures IsVersionTag(ReleaseTag(r))
    ensures ReleaseHeader(ReleaseTag(r).attrs).(changes := r.changes) == r
  {
  }

  /** Written entries raise nothing and open no release. */
  lemma {:induction false} EntryEventsQuiet(items: seq<ChangeItem>)
    ensures forall e <- EntryEvents(items) :: !IsVersionTag(e) && FaultOf(e).None?
    decreases |items|
  {
    if items != [] {
      EntryEventsQuiet(items[1..]);
    }
  }

  /** A written entry with normalised text is read back as itself. */
  lemma EntryRead(item: ChangeItem)
    requires item.text != [] && Normalized(item.text)
    ensures !IsVersionTag(StartTag(EntryTag, TypeAttrs(item.kind), Text(item.text)))
    ensures EntriesOf(StartTag(EntryTag, TypeAttrs(item.kind), Text(item.text))) == [item]
  {
    NormalizeFixpoint(item.text);
    TypeAttrsRoundTrip(item.kind);
  }

  /** One event that is not a version tag, in front of the rest. */
  lemma LeadingEntriesCons(e: Event, rest: seq<Event>)
    requires !IsVersionTag(e)
    ensures LeadingEntries([e] + rest) == EntriesOf(e) + LeadingEntries(rest)
  {
    assert ([e] + rest)[0] == e && ([e] + rest)[1..] == rest;
  }

  /** An entry event that is not a version tag, and its end tag, in front of the rest. */
  lemma EntryPairRead(tag: Event, item: ChangeItem, rest: seq<Event>)
    requires !IsVersionTag(tag) && EntriesOf(tag) == [item]
    ensures LeadingEntries([tag, OtherEvent] + rest) == [item] + LeadingEntries(rest)
  {
    var tail := [OtherEvent] + rest;
    assert tail[1..] == rest;
    assert LeadingEntries(tail) == LeadingEntries(rest);
    var events := [tag, OtherEvent] + rest;
    assert events[0] == tag && events[1..] == tail;
  }

  lemma {:induction false} EntryEventsRead(items: seq<ChangeItem>)
    requires NormalEntries(items)
    ensures LeadingEntries(EntryEvents(items)) == items
    decreases |items|
  {
    if items != [] {
      EntryEventsRead(items[1..]);
      var tag := StartTag(EntryTag, TypeAttrs(items[0].kind), Text(items[0].text));
      EntryRead(items[0]);
      EntryPairRead(tag, items[0], EntryEvents(items[1..]));
      assert items == [items[0]] + items[1..];
    }
  }

  /** The entries before the first version tag of a concatenation. */
  lemma {:induction false} LeadingEntriesAppend(pre: seq<Event>, post: seq<Event>)
    requires forall e <- pre :: !IsVersionTag(e)
    ensures LeadingEntries(pre + post) == LeadingEntries(pre) + LeadingEntries(post)
    decreases |pre|
  {
    if pre == [] {
      assert pre + post == post;
    } else {
      assert (pre + post)[0] == pre[0] && (pre + post)[1..] == pre[1..] + post;
      LeadingEntriesAppend(pre[1..], post);
    }
  }

  lemma {:induction false} ReleasesEventsQuiet(rs: seq<Release>)
    ensures forall e <- ReleasesEvents(rs) :: FaultOf(e).None?
    decreases |rs|
  {
    if rs != [] {
      ReleasesEventsQuiet(rs[1..]);
      EntryEventsQuiet(rs[0].changes);
    }
  }

  /** Events without a version tag, then an end tag: their entries come first. */
  lemma BodyRead(entries: seq<Event>, items: seq<ChangeItem>, after: seq<Event>)
    requires forall e <- entries :: !IsVersionTag(e)
    requires LeadingEntries(entries) == items
    ensures forall e <- entries + [OtherEvent] :: !IsVersionTag(e)
    ensures LeadingEntries(entries + [OtherEvent] + after) == items + LeadingEntries(after)
  {
    LeadingEntriesAppend(entries, [OtherEvent] + after);
    LeadingEntriesCons(OtherEvent, after);
    assert entries + [OtherEvent] + after == entries + ([OtherEvent] + after);
  }

  /** The body of a written release: its entries, then its end tag. */
  lemma ReleaseBodyRead(r: Release, after: seq<Event>)
    requires NormalEntries(r.changes)
    ensures forall e <- EntryEvents(r.changes) + [OtherEvent] :: !IsVersionTag(e)
    ensures LeadingEntries(EntryEvents(r.changes) + [OtherEvent] + after) == r.changes + LeadingEntries(after)
  {
    EntryEventsQuiet(r.changes);
    EntryEventsRead(r.changes);
    BodyRead(EntryEvents(r.changes), r.changes, after);
  }

  /** A version tag in front of events whose leading entries are `r`'s. */
  lemma VersionTagRead(tag: Event, r: Release, events: seq<Event>)
    requires IsVersionTag(tag) && ReleaseHeader(tag.attrs).(changes := r.changes) == r
    requires LeadingEntries(events) == r.changes
    ensures Grouped([tag] + events) == [r] + Grouped(events)
    ensures LeadingEntries([tag] + events) == []
  {
    assert ([tag] + events)[0] == tag && ([tag] + events)[1..] == events;
  }

  /** A version tag, a body without version tags, then events with no leading
      entries: the tag's release holds exactly the body's entries. */
  lemma TaggedBodyRead(tag: Event, r: Release, body: seq<Event>, after: seq<Event>)
    requires IsVersionTag(tag) && ReleaseHeader(tag.attrs).(changes := r.changes) == r
    requires forall e <- body :: !IsVersionTag(e)
    requires LeadingEntries(after) == []
    requires LeadingEntries(body + after) == r.changes + LeadingEntries(after)
    ensures Grouped([tag] + body + after) == [r] + Grouped(after)
    ensures LeadingEntries([tag] + body + after) == []
  {
    assert r.changes + [] == r.changes;
    VersionTagRead(tag, r, body + after);
    PreambleDiscarded(body, after);
    assert [tag] + body + after == [tag] + (body + after);
  }

  /** A written release, followed by anything, is read as that release first. */
  lemma ReleaseRead(r: Release, after: seq<Event>)
    requires NormalEntries(r.changes)
    requires LeadingEntries(after) == []
    ensures Grouped(ReleaseEvents(r) + after) == [r] + Grouped(after)
    ensures LeadingEntries(ReleaseEvents(r) + after) == []
  {
    var body := EntryEvents(r.changes) + [OtherEvent];
    ReleaseBodyRead(r, after);
    VersionAttrsRoundTrip(r);
    TaggedBodyRead(ReleaseTag(r), r, body, after);
    assert ReleaseEvents(r) == [ReleaseTag(r)] + body;
  }

  lemma ReleasesEventsCons(rs: seq<Release>)
    requires rs != []
    ensures ReleasesEvents(rs) + [OtherEvent] == ReleaseEvents(rs[0]) + (ReleasesEvents(rs[1..]) + [OtherEvent])
  {
  }

  lemma {:induction false} ReleasesEventsRead(rs: seq<Release>)
    requires WellFormed(Changelog(rs))
    ensures Grouped(ReleasesEvents(rs) + [OtherEvent]) == rs
    ensures LeadingEntries(ReleasesEvents(rs) + [OtherEvent]) == []
    decreases |rs|
  {
    if rs == [] {
      assert ReleasesEvents(rs) + [OtherEvent] == [OtherEvent];
    } else {
      var after := ReleasesEvents(rs[1..]) + [OtherEvent];
      assert WellFormed(Changelog(rs[1..]));
      ReleasesEventsRead(rs[1..]);
      ReleaseRead(rs[0], after);
      ReleasesEventsCons(rs);
      assert rs == [rs[0]] + rs[1..];
    }
  }

  /** Parsing the written document of a well-formed changelog gives it back. */
  lemma RoundTrip(c: Changelog)
    requires WellFormed(c)
    ensures Parse(DocumentEvents(c)) == Parsed(c)
  {
    var root := StartTag("changelog", map[], Text(""));
    var events := DocumentEvents(c);
    ReleasesEventsRead(c.releases);
    ReleasesEventsQuiet(c.releases);
    assert events == [root] + (ReleasesEvents(c.releases) + [OtherEvent]);
    assert Faultless(events) by {
      forall i | 0 <= i < |events| ensures FaultOf(events[i]).None? {
        assert events[i] in [root] + ReleasesEvents(c.releases) + [OtherEvent];
      }
    }
    ParseIsGrouped(events);
    PreambleDiscarded([root], ReleasesEvents(c.releases) + [OtherEvent]);
  }

  /** The loop's state holds only well-formed releases and entries. */
  predicate WellFormedState(st: ParserState) {
    && WellFormed(Changelog(st.releases))
    && NormalEntries(st.pending)
  }

  lemma StepKeepsWellFormed(st: ParserState, e: Event)
    requires WellFormedState(st) && Step(st, e).Running?
    ensures WellFormedState(Step(st, e).state)
  {
    if IsVersionTag(e) {
      assert WellFormed(Changelog(Flush(st)));
    } else if e.StartTag? && e.body.Text? {
      EntryKept(e.attrs, e.body.text);
    }
  }

  lemma {:induction false} RunKeepsWellFormed(st: ParserState, events: seq<Event>)
    requires WellFormedState(st) && Run(st, events).Running?
    ensures WellFormedState(Run(st, events).state)
    decreases |events|
  {
    if events != [] {
      StepKeepsWellFormed(st, events[0]);
      RunKeepsWellFormed(Step(st, events[0]).state, events[1..]);
    }
  }

  /** Conversely, everything the parser emits is well formed, so the round
      trip covers every changelog a parse can produce. */
  lemma ParsedIsWellFormed(events: seq<Event>)
    requires Parse(events).Parsed?
    ensures WellFormed(Parse(events).changelog)
  {
    RunKeepsWellFormed(Start, events);
    var st := Run(Start, events).state;
    assert WellFormed(Changelog(Flush(st)));
  }
}
