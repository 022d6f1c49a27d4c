// The project's shared constants.  Their module is not part of this model;
// all the tools rely on is that the default-value sentinel is an upper-case
// string, compared against a value trimmed and upper-cased.

module Constants {
  import opened Text

  type UpperText = s: string | UpperStr(s) == s witness ""

  /** `DEFAULT_SENTINEL`: some fixed upper-case string. */
  const DefaultSentinel: UpperText
}
