/** The load/retry state machine around the parser. The view model owns one
    UI state value and replaces it at each transition: a load first marks the
    state as loading, then applies the outcome of the parse. The asynchronous
    launch is modelled as these two steps taken in sequence. */
module ViewModel {
  import opened ChangelogModels
  import opened ChangelogParser

  /** Everything the UI observes: the changelog shown, whether a load is in
      flight, and the error message of the last failed load. */
  datatype UiState = UiState(changelog: Changelog, isLoading: bool, error: Option<string>)

  /** What the parse call produced: a returned value or a classified
      exception, or an exception of any other kind, which no handler catches. */
  datatype Outcome = Returned(result: ParseResult) | Unclassified

  const NotFoundMessage := "Changelog resource not found"
  const FormatPrefix := "Invalid changelog format: "
  const ReadPrefix := "Failed to read changelog: "

  /** The state before any load: an empty changelog, loading, no error. */
  function InitialState(): (s: UiState)
    ensures s.changelog.releases == [] && s.isLoading && s.error == None
  {
    UiState(EmptyChangelog(), true, None)
  }

  /** The state once a load begins: loading, the error cleared, the changelog kept. */
  function Begin(s: UiState): (r: UiState)
    ensures r.isLoading && r.error == None && r.changelog == s.changelog
  {
    s.(isLoading := true, error := None)
  }

  /** The state once the parse outcome is known. */
  function Completed(s: UiState, o: Outcome): (r: UiState)
    ensures o.Unclassified? ==> r == s
    ensures o.Returned? ==> !r.isLoading && (r.error == None <==> o.result.Parsed?)
    ensures o.Returned? && o.result.Parsed? ==> r.changelog == o.result.changelog
    ensures o.Returned? && !o.result.Parsed? ==> r.changelog == s.changelog
    ensures o == Returned(NotFound) ==> r.error == Some(NotFoundMessage)
    ensures o.Returned? && o.result.Malformed? ==> r.error == Some(FormatPrefix + o.result.msg)
    ensures o.Returned? && o.result.IoFail? ==> r.error == Some(ReadPrefix + o.result.msg)
  {
    match o
    case Unclassified => s
    case Returned(Parsed(c)) => s.(changelog := c, isLoading := false, error := None)
    case Returned(NotFound) => s.(isLoading := false, error := Some(NotFoundMessage))
    case Returned(Malformed(m)) => s.(isLoading := false, error := Some(FormatPrefix + m))
    case Returned(IoFail(m)) => s.(isLoading := false, error := Some(ReadPrefix + m))
  }

  /** An error message is one of the three the view model produces. */
  predicate KnownError(e: string) {
    e == NotFoundMessage || FormatPrefix <= e || ReadPrefix <= e
  }

  /** The invariant of every reachable state: a load in flight shows no
      error, and any error shown is one of the three kinds. */
  predicate Consistent(s: UiState) {
    && (s.isLoading ==> s.error == None)
    && (s.error.Some? ==> KnownError(s.error.value))
  }

  /** The initial state is consistent and both transitions keep it so. */
  lemma TransitionsKeepConsistent(s: UiState, o: Outcome)
    requires Consistent(s)
    ensures Consistent(InitialState())
    ensures Consistent(Begin(s))
    ensures Consistent(Completed(s, o))
  {
    match o
    case Unclassified =>
    case Returned(r) =>
      match r
      case Parsed(_) =>
      case NotFound =>
      case Malformed(m) => assert FormatPrefix <= FormatPrefix + m;
      case IoFail(m) => assert ReadPrefix <= ReadPrefix + m;
  }

  /** After a load whose outcome is classified, nothing is loading, and the
      error is absent exactly when the parse succeeded. */
  lemma LoadSettles(s: UiState, r: ParseResult)
    ensures !Completed(Begin(s), Returned(r)).isLoading
    ensures Completed(Begin(s), Returned(r)).error == None <==> r.Parsed?
    ensures r.Parsed? ==> Completed(Begin(s), Returned(r)) == UiState(r.changelog, false, None)
    ensures !r.Parsed? ==> Completed(Begin(s), Returned(r)).changelog == s.changelog
  {
  }

  /** An unclassified failure leaves the state as the start of the load set
      it: loading, with no error message. */
  lemma UnclassifiedStaysLoading(s: UiState)
    ensures Completed(Begin(s), Unclassified) == Begin(s)
    ensures Completed(Begin(s), Unclassified).isLoading
    ensures Completed(Begin(s), Unclassified).error == None
  {
  }

  /** A failed load followed by a successful retry ends with the parsed
      changelog and no error, whatever the state before. */
  lemma RetryRecovers(s: UiState, failure: ParseResult, c: Changelog)
    requires !failure.Parsed?
    ensures Completed(Begin(s), Returned(failure)).error.Some?
    ensures Completed(Begin(Completed(Begin(s), Returned(failure))), Returned(Parsed(c))) == UiState(c, false, None)
  {
  }

  /** The view model: the single owner and writer of the UI state. */
  class ChangelogViewModel {
    var uiState: UiState

    predicate Valid()
      reads this
    {
      Consistent(uiState)
    }

    constructor ()
      ensures Valid() && uiState == InitialState()
    {
      uiState := UiState(Changelog([]), true, None);
    }

    /** The first step of a load: mark the state as loading and clear the error. */
    method BeginLoad()
      requires Valid()
      modifies this
      ensures Valid() && uiState == Begin(old(uiState))
    {
      uiState := uiState.(isLoading := true, error := None);
    }

    /** The second step of a load: apply the parse outcome. Only the three
        classified failures are caught; any other leaves the state untouched. */
    method Complete(outcome: Outcome)
      requires Valid()
      modifies this
      ensures Valid() && uiState == Completed(old(uiState), outcome)
    {
      match outcome {
        case Unclassified =>
        case Returned(Parsed(c)) =>
          uiState := uiState.(changelog := c, isLoading := false, error := None);
        case Returned(NotFound) =>
          uiState := uiState.(isLoading := false, error := Some(NotFoundMessage));
        case Returned(Malformed(m)) =>
          uiState := uiState.(isLoading := false, error := Some(FormatPrefix + m));
          assert FormatPrefix <= FormatPrefix + m;
        case Returned(IoFail(m)) =>
          uiState := uiState.(isLoading := false, error := Some(ReadPrefix + m));
          assert ReadPrefix <= ReadPrefix + m;
      }
    }

    /** Loads raw resource `rawResId`: begin, parse, complete. */
    method LoadChangelog(resources: map<int, seq<Event>>, rawResId: int)
      requires Valid()
      modifies this
      ensures Valid()
      ensures uiState == Completed(Begin(old(uiState)), Returned(ParseResource(resources, rawResId)))
    {
      BeginLoad();
      var result := ParseChangelog(resources, rawResId);
      Complete(Returned(result));
    }

    /** Retrying is loading again. */
    method Retry(resources: map<int, seq<Event>>, rawResId: int)
      requires Valid()
      modifies this
      ensures Valid()
      ensures uiState == Completed(Begin(old(uiState)), Returned(ParseResource(resources, rawResId)))
    {
      LoadChangelog(resources, rawResId);
    }
  }
}
