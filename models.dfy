/** The value types shared by the parser and the view model: a changelog is an
    ordered list of releases, each release an ordered list of change entries. */
module ChangelogModels {

  /** A Kotlin nullable value: `None` stands for `null`. */
  datatype Option<+T> = None | Some(value: T)

  /** The closed set of change categories. */
  datatype ChangeType = Fix | New | Breaking

  /** One bullet-point change; its category is optional and absent by default. */
  datatype ChangeItem = ChangeItem(text: string, kind: Option<ChangeType>)

  /** A versioned release: the version name is always present (possibly empty),
      the date may be absent. */
  datatype Release = Release(versionName: string, changeDate: Option<string>, changes: seq<ChangeItem>)

  /** The whole changelog, releases in document order. */
  datatype Changelog = Changelog(releases: seq<Release>)

  /** The changelog with no releases. */
  function EmptyChangelog(): Changelog {
    Changelog([])
  }
}
