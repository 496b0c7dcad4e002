/**
 * Nullable lookups as the build script performs them: `System.getenv`,
 * `Properties.getProperty` and Kotlin's elvis operator `?:`, which falls
 * through to its right operand only when the left one is null.
 */
module Lookups {

  /** A Kotlin nullable value: `None` stands for null. */
  datatype Option<T> = None | Some(value: T) {
    /** `this ?: default` when the default is not itself nullable. */
    function GetOr(default: T): (r: T)
      ensures Some? ==> r == value
      ensures None? ==> r == default
    {
      match this
      case Some(v) => v
      case None => default
    }
  }

  /** Kotlin's `a ?: b`: only null falls through, an empty string does not. */
  function Elvis<T>(a: Option<T>, b: Option<T>): Option<T>
  {
    if a.Some? then a else b
  }

  /**
   * A lookup in a key/value snapshot as a nullable value: `System.getenv(name)`
   * over the process environment, and `Properties.getProperty(key)` over a
   * table without defaults.
   */
  function Lookup(m: map<string, string>, key: string): (r: Option<string>)
    ensures r.Some? <==> key in m
    ensures r.Some? ==> r.value == m[key]
  {
    if key in m then Some(m[key]) else None
  }

  /** `l[i]` is the first non-null entry of the chain. */
  ghost predicate FirstNonNull<T>(l: seq<Option<T>>, i: int)
  {
    0 <= i < |l| && l[i].Some? && forall j :: 0 <= j < i ==> l[j].None?
  }

  /**
   * The chain `l[0] ?: l[1] ?: ... ?: l[|l|-1]` (elvis is right-associative):
   * the first non-null entry, or null when every entry is null. Earlier
   * entries shadow later ones whatever the later ones hold.
   */
  function Chain<T>(l: seq<Option<T>>): (r: Option<T>)
    ensures r.None? <==> forall i :: 0 <= i < |l| ==> l[i].None?
    ensures forall i :: FirstNonNull(l, i) ==> r == l[i]
    ensures r.Some? ==> exists i :: FirstNonNull(l, i) && r == l[i]
  {
    if |l| == 0 then None
    else
      var rest := Chain(l[1..]);
      assert forall i :: 1 <= i < |l| ==> l[i] == l[1..][i - 1];
      assert rest.Some? ==> exists i :: FirstNonNull(l[1..], i) && rest == l[1..][i];
      assert l[0].None? && rest.Some? ==>
        exists i :: FirstNonNull(l, i) && rest == l[i] by {
        if l[0].None? && rest.Some? {
          var k :| FirstNonNull(l[1..], k) && rest == l[1..][k];
          assert FirstNonNull(l, k + 1);
        }
      }
      assert forall i :: FirstNonNull(l, i) && i > 0 ==> FirstNonNull(l[1..], i - 1);
      Elvis(l[0], rest)
  }
}
