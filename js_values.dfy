/** Values and string operations of the JavaScript runtime that the components rely on. */
module JsValues {

  /** A value that may be absent (`null` / `undefined` in the source). */
  datatype Option<+T> = None | Some(value: T) {
    function GetOr(default: T): T {
      match this
      case Some(v) => v
      case None => default
    }
  }

  /** The result of JavaScript's `Number(...)` conversion: either NaN or a finite number. */
  datatype JsNumber = NaN | Num(value: real)

  /** `s.startsWith(prefix)`. */
  predicate StartsWith(s: string, prefix: string) {
    |prefix| <= |s| && s[..|prefix|] == prefix
  }

  /** `sub` occurs in `s` starting at position `i`. */
  predicate OccursAt(s: string, sub: string, i: int) {
    0 <= i <= |s| - |sub| && s[i..i + |sub|] == sub
  }

  /** `s.indexOf(sub) !== -1`: some position of `s` begins an occurrence of `sub`. */
  predicate Contains(s: string, sub: string) {
    exists i :: 0 <= i <= |s| && OccursAt(s, sub, i)
  }

  /** Direct scan used to decide `Contains`. */
  function ContainsFrom(s: string, sub: string, i: nat): (b: bool)
    requires i <= |s|
    ensures b <==> exists j :: i <= j && OccursAt(s, sub, j)
    decreases |s| - i
  {
    if i + |sub| > |s| then false
    else if s[i..i + |sub|] == sub then assert OccursAt(s, sub, i); true
    else ContainsFrom(s, sub, i + 1)
  }

  /** Searching from the start decides `Contains`. */
  lemma SearchFromStart(s: string, sub: string)
    ensures ContainsFrom(s, sub, 0) <==> Contains(s, sub)
  {
    if ContainsFrom(s, sub, 0) {
      var j :| 0 <= j && OccursAt(s, sub, j);
      assert 0 <= j <= |s| && OccursAt(s, sub, j);
    }
  }

  /** JavaScript's `||` on a string: the empty string is falsy. */
  function OrElse(s: string, fallback: string): (r: string)
    ensures s != "" ==> r == s
    ensures s == "" ==> r == fallback
  {
    if s != "" then s else fallback
  }
}
