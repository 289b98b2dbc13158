/** The PHP values the behaviour reads from its settings and from a model's
    pending data, reduced to the shapes the behaviour tells apart. */
module PhpValues {

  /** A PHP value: null, a boolean, an integer, a string, or an array with
      string keys. */
  datatype Value =
    | Null
    | Bool(b: bool)
    | Int(i: int)
    | Str(s: string)
    | Arr(entries: map<string, Value>)

  /** A non-empty string that starts with a letter: PHP never reads it as a
      number, and it is neither "" nor "0", so it is truthy. */
  predicate IsWord(w: string)
  {
    |w| > 0 && (('a' <= w[0] <= 'z') || ('A' <= w[0] <= 'Z'))
  }

  /** PHP 5/7 loose comparison `v == w` of a value with a word. */
  function LooseEqualsWord(v: Value, w: string): (eq: bool)
    requires IsWord(w)
    ensures eq <==> v == Str(w) || v == Bool(true) || v == Int(0)
  {
    match v
    case Null => false        // null is compared as ""
    case Bool(b) => b         // the word is converted to true
    case Int(i) => i == 0     // the word is converted to the number 0
    case Str(s) => s == w     // no side is numeric: byte-wise comparison
    case Arr(_) => false      // an array never equals a string
  }
}
