/** Outcomes shared by every component: optional values, the exceptions the
    library raises, and results that carry either a value or one of them. */
module Base {

  datatype Option<+T> = None | Some(value: T)

  /** The exceptions the library raises. Row/column positions are not modelled. */
  datatype Error =
    | SyntaxError(message: string)   // malformed markup under a strict setting
    | InputError(message: string)    // structural errors: closing tags, value shapes
    | TypeError                      // a member of `undefined` was used (a broken builder)
    | RangeError                     // String.fromCodePoint(NaN), for the entity `&#;`
    | Unrepresentable                // a UTF-16 surrogate code point, which `char` cannot hold
    | Unsupported                    // an encoder branch outside the model

  /** A value, or the exception that aborted the computation. */
  datatype Result<+T> = Ok(value: T) | Err(error: Error) {
    predicate IsFailure() { Err? }

    function PropagateFailure<U>(): Result<U>
      requires Err?
    {
      Err(error)
    }

    function Extract(): T
      requires Ok?
    {
      value
    }
  }

  /** The result of a state-changing method: it returned, or it threw. */
  datatype Outcome = Pass | Fail(error: Error)

  /** `sets[name] || sets.minimal`: the table registered under a name, or
      the `minimal` table when there is none (index.js:269, 384). */
  function TableNamed<K, V>(sets: map<string, map<K, V>>, name: string): (t: map<K, V>)
    requires "minimal" in sets
    ensures name in sets ==> t == sets[name]
    ensures name !in sets ==> t == sets["minimal"]
  {
    if name in sets then sets[name] else sets["minimal"]
  }

  /** Markup regrouped around its first character. */
  lemma Regroup<T>(a: seq<T>, b: seq<T>, c: seq<T>, d: seq<T>)
    requires |a| > 0
    ensures a + b + c + d == [a[0]] + (a[1..] + b + c + d)
  {
    assert a == [a[0]] + a[1..];
  }

  lemma RegroupOne<T>(a: T, b: seq<T>, c: seq<T>, d: seq<T>)
    ensures [a] + b + c + d == [a] + (b + c + d)
  {
  }

  lemma RegroupTwo<T>(a: seq<T>, d: seq<T>)
    requires |a| > 0
    ensures a + d == [a[0]] + (a[1..] + d)
  {
    assert a == [a[0]] + a[1..];
  }

  /** Two splits around one character before the same rest are the same split. */
  lemma SameSplit<T>(u: seq<T>, c: T, x: seq<T>, d: T, rest: seq<T>)
    requires u + [c] + rest == x + [d] + rest
    ensures u == x && c == d
  {
    var w := u + [c] + rest;
    assert |u| == |x|;
    assert u == w[..|u|] && x == (x + [d] + rest)[..|x|];
    assert c == w[|u|] && d == (x + [d] + rest)[|x|];
  }

  lemma Assoc<T>(a: seq<T>, b: seq<T>, d: seq<T>)
    ensures a + b + d == a + (b + d)
  {
  }

  lemma Snoc<T>(t: seq<T>)
    requires |t| > 0
    ensures t[..|t| - 1] + [t[|t| - 1]] == t
  {
  }

  lemma AssocFour<T>(p: seq<T>, a: seq<T>, b: seq<T>, c: seq<T>, d: seq<T>)
    ensures p + a + b + c + d == p + (a + b + c + d)
  {
  }

  lemma EmptyTwice<T>(a: seq<T>, b: seq<T>)
    ensures [] + [] + a + b == a + b
  {
  }

  lemma RegroupPair<T>(a: T, b: T, c: T, rest: seq<T>)
    ensures [a, b] + [c] + rest == [a] + ([b] + [c] + rest)
  {
  }
}
