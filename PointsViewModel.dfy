/** `PointsViewModel`: the observable id cell whose value selects the points
    shown, and the blank guard of `RepoId`. */
module PointsViewModel {
  import opened Wrappers

  /** A `MutableLiveData<String>`: its value (`null` until first set) and the
      number of values it has dispatched to its observers. */
  datatype IdCell = IdCell(value: Option<string>, version: nat)

  /** The cell after `setId(owner)`. */
  function SetIdStep(c: IdCell, owner: string): (r: IdCell)
    ensures r.value == Some(owner)
    ensures r == c <==> c.value == Some(owner)
    ensures r != c ==> r.version == c.version + 1
  {
    if c.value != Some(owner) then IdCell(Some(owner), c.version + 1) else c
  }

  /** Setting the same id twice is setting it once. */
  lemma SetIdIdempotent(c: IdCell, owner: string)
    ensures SetIdStep(SetIdStep(c, owner), owner) == SetIdStep(c, owner)
  {
  }

  class PointsViewModel {
    var repoId: IdCell

    constructor ()
      ensures repoId == IdCell(None, 0)
    {
      repoId := IdCell(None, 0);
    }

    /** `setId(owner)`: assigns the id, and so notifies the observers, only when
        it differs from the current one. */
    method SetId(owner: string)
      modifies this
      ensures repoId == SetIdStep(old(repoId), owner)
    {
      if repoId.value != Some(owner) {
        repoId := IdCell(Some(owner), repoId.version + 1);
      }
    }
  }

  /** Kotlin's `Char.isWhitespace()`: the control characters U+0009 to U+000D and
      U+001C to U+001F, and the space, line and paragraph separators. */
  predicate IsWhitespace(c: char)
  {
    || '\U{0009}' <= c <= '\U{000D}'
    || '\U{001C}' <= c <= '\U{0020}'
    || c == '\U{00A0}' || c == '\U{1680}'
    || '\U{2000}' <= c <= '\U{200A}'
    || c == '\U{2028}' || c == '\U{2029}' || c == '\U{202F}' || c == '\U{205F}' || c == '\U{3000}'
  }

  /** `isBlank()`: empty, or whitespace only. */
  predicate IsBlank(s: string)
  {
    forall i :: 0 <= i < |s| ==> IsWhitespace(s[i])
  }

  datatype RepoId = RepoId(owner: string, name: string)
  {
    /** `ifExists(f)`: absent when the owner or the name is blank, otherwise
        `f(owner, name)`. */
    function IfExists<T>(f: (string, string) -> T): (r: Option<T>)
      ensures r.None? <==> IsBlank(owner) || IsBlank(name)
      ensures r.Some? ==> r.value == f(owner, name)
    {
      if IsBlank(owner) || IsBlank(name) then None else Some(f(owner, name))
    }
  }
}
