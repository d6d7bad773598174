/**
 The blank-name test both the store and the controller apply to entrant names:
 .NET's string.IsNullOrWhiteSpace, with char.IsWhiteSpace spelled out.
 */
module Text {

  import opened Nullable

  /** The characters .NET's char.IsWhiteSpace accepts: the space separators,
      the line and paragraph separators, U+0009..U+000D and U+0085. */
  function IsWhiteSpace(c: char): (r: bool)
    ensures r <==> c in WhiteSpaceChars
  {
    || c == ' '
    || ('\t' <= c <= '\r')
    || c == '\U{85}'
    || c == '\U{A0}'
    || c == '\U{1680}'
    || ('\U{2000}' <= c <= '\U{200A}')
    || c == '\U{2028}'
    || c == '\U{2029}'
    || c == '\U{202F}'
    || c == '\U{205F}'
    || c == '\U{3000}'
  }

  /** The same 25 code points listed one by one. */
  const WhiteSpaceChars: set<char> := {
    '\t', '\n', '\U{B}', '\U{C}', '\r', ' ', '\U{85}', '\U{A0}', '\U{1680}',
    '\U{2000}', '\U{2001}', '\U{2002}', '\U{2003}', '\U{2004}', '\U{2005}',
    '\U{2006}', '\U{2007}', '\U{2008}', '\U{2009}', '\U{200A}',
    '\U{2028}', '\U{2029}', '\U{202F}', '\U{205F}', '\U{3000}'
  }

  /** string.IsNullOrWhiteSpace: true for null, otherwise scans the string
      and fails at the first character that is not white space. */
  function IsNullOrWhiteSpace(s: Option<string>): (r: bool)
    decreases if s.Some? then |s.value| else 0
    ensures r <==> s.None? || forall i :: 0 <= i < |s.value| ==> IsWhiteSpace(s.value[i])
  {
    match s
    case None => true
    case Some(t) =>
      if |t| == 0 then true
      else if !IsWhiteSpace(t[0]) then false
      else
        var rest := IsNullOrWhiteSpace(Some(t[1..]));
        assert forall i :: 1 <= i < |t| ==> t[i] == t[1..][i - 1];
        rest
  }

  /** A string whose first character is visible is not blank. */
  lemma VisibleFirstIsNotBlank(s: string)
    requires |s| > 0 && !IsWhiteSpace(s[0])
    ensures !IsNullOrWhiteSpace(Some(s))
  {
  }
}
