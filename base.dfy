/** Small shared definitions: an optional value and Python's notion of whitespace. */
module Base {

  /** A value that may be missing (Python's `None`). */
  datatype Option<T> = None | Some(value: T)
  {
    /** The value, or `default` when missing. */
    function GetOr(default: T): T {
      if Some? then value else default
    }
  }

  /** The characters for which Python's `str.isspace()` holds, which is what
      the regular-expression class `\s` matches in a text pattern. */
  predicate IsSpace(c: char) {
    var n := c as int;
    (9 <= n <= 13) || (28 <= n <= 32) || n == 0x85 || n == 0xA0 || n == 0x1680 ||
    (0x2000 <= n <= 0x200A) || n == 0x2028 || n == 0x2029 || n == 0x202F ||
    n == 0x205F || n == 0x3000
  }

  function Min(a: nat, b: nat): nat {
    if a <= b then a else b
  }
}
