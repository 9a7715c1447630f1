/** The load and retry flow replayed end to end on the view model: a
    malformed document fails with the format message and leaves the empty
    changelog shown; a retry against the written document of a changelog
    then shows that changelog with no error; and a load of an id with no
    resource reports it missing while keeping the changelog shown. */
module ChangelogScenarios {
  import opened ChangelogModels
  import opened Whitespace
  import opened ChangelogParser
  import opened ChangelogDocuments
  import opened ViewModel

  /** A document that opens its root element and then breaks off with a syntax error. */
  function BrokenDocument(msg: string): seq<Event> {
    [StartTag("changelog", map[], Text("")), Failure(SyntaxError(msg))]
  }

  /** The broken document fails with the syntax error's message. */
  lemma BrokenDocumentFails(msg: string)
    ensures Parse(BrokenDocument(msg)) == Malformed(msg)
  {
    ParseFailsAtFirstFault(BrokenDocument(msg), 1);
  }

  method RetryAfterMalformedDocument(c: Changelog, msg: string, id: int, missing: int)
    returns (failed: UiState, recovered: UiState, lost: UiState)
    requires WellFormed(c) && missing != id
    ensures failed == UiState(EmptyChangelog(), false, Some(FormatPrefix + msg))
    ensures recovered == UiState(c, false, None)
    ensures lost == UiState(c, false, Some(NotFoundMessage))
  {
    var vm := new ChangelogViewModel();

    var broken := map[id := BrokenDocument(msg)];
    vm.LoadChangelog(broken, id);
    BrokenDocumentFails(msg);
    failed := vm.uiState;

    var fixed := map[id := DocumentEvents(c)];
    vm.Retry(fixed, id);
    RoundTrip(c);
    recovered := vm.uiState;

    vm.LoadChangelog(fixed, missing);
    lost := vm.uiState;
  }

  /** The two-release changelog of the view-model tests. */
  function TestChangelog(): Changelog {
    Changelog([
      Release("2.0.0", Some("Jun 18th, 2023"), [ChangeItem("Major update", None), ChangeItem("New features", Some(New))]),
      Release("1.0.0", None, [ChangeItem("Initial release", None)])
    ])
  }

  /** Its entry texts are already in normal form. */
  lemma TestTextsNormalized()
    ensures Normalized("Major update") && Normalized("New features") && Normalized("Initial release")
  {
    MajorUpdateNormalized();
    NewFeaturesNormalized();
    InitialReleaseNormalized();
  }

  lemma MajorUpdateNormalized() ensures Normalized("Major update") {}
  lemma NewFeaturesNormalized() ensures Normalized("New features") {}
  lemma InitialReleaseNormalized() ensures Normalized("Initial release") {}

  /** Written out as a document and parsed, the test changelog comes back unchanged. */
  lemma TestChangelogRoundTrip()
    ensures Parse(DocumentEvents(TestChangelog())) == Parsed(TestChangelog())
  {
    TestTextsNormalized();
    RoundTrip(TestChangelog());
  }

  /** The retry test with its own values: resource 12345 first fails with the
      message "Error", then holds the test changelog's document. */
  method RetryRestoresTestChangelog() returns (failed: UiState, recovered: UiState)
    ensures failed == UiState(EmptyChangelog(), false, Some("Invalid changelog format: Error"))
    ensures recovered == UiState(TestChangelog(), false, None)
  {
    TestTextsNormalized();
    var lost;
    failed, recovered, lost := RetryAfterMalformedDocument(TestChangelog(), "Error", 12345, 1);
    assert FormatPrefix + "Error" == "Invalid changelog format: Error";
  }
}
