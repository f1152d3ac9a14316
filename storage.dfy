/** `validateFileName` (utils/storage.ts): the one validator of that file
    that is not browser storage. */
module Storage {

  import opened Wrappers
  import opened Text

  const MaxNameLength := 255

  /** The characters of `/[<>:"/\\|?*]/`. */
  predicate Forbidden(c: char) {
    c == '<' || c == '>' || c == ':' || c == '"' || c == '/' || c == '\\' || c == '|' || c == '?' || c == '*'
  }

  /** A name none of whose three checks fails. */
  predicate AcceptableName(name: string) {
    !IsBlank(name) && |name| <= MaxNameLength && !HasChar(name, Forbidden)
  }

  /** `validateFileName(name)`: the first failing check's message, in the
      order blank, length, characters; `None` when all pass. */
  function ValidateFileName(name: string): (r: Option<string>)
    ensures r.None? <==> AcceptableName(name)
    ensures IsBlank(name) ==> r == Some("Name cannot be empty")
    ensures !IsBlank(name) && |name| > MaxNameLength ==> r == Some("Name is too long (max 255 characters)")
    ensures !IsBlank(name) && |name| <= MaxNameLength && HasChar(name, Forbidden) ==>
      r == Some("Name contains invalid characters")
  {
    if Trim(name) == [] then Some("Name cannot be empty")
    else if |name| > MaxNameLength then Some("Name is too long (max 255 characters)")
    else if FindForbidden(name, 0).Some? then Some("Name contains invalid characters")
    else None
  }

  /** The first index at or after `from` holding a forbidden character, as
      the regular expression's scan finds it. */
  function FindForbidden(name: string, from: nat): (r: Option<nat>)
    requires from <= |name|
    ensures r.Some? ==> (from <= r.value < |name| && Forbidden(name[r.value]) &&
      forall k :: from <= k < r.value ==> !Forbidden(name[k]))
    ensures r.None? ==> forall k :: from <= k < |name| ==> !Forbidden(name[k])
    decreases |name| - from
  {
    if from == |name| then None
    else if Forbidden(name[from]) then Some(from)
    else FindForbidden(name, from + 1)
  }

  /** An accepted name is a non-empty string of at most 255 characters
      whose trimmed form is non-empty too. */
  lemma AcceptedNameShape(name: string)
    requires ValidateFileName(name).None?
    ensures 0 < |name| <= MaxNameLength && Trim(name) != []
    ensures forall k :: 0 <= k < |name| ==> !Forbidden(name[k])
  {
  }
}
