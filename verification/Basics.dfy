/** What several of the modules share. */
module Basics {

  datatype Option<T> = None | Some(value: T)

  /** The three quotes of SQL text. */
  predicate IsQuote(c: char) { c == '\'' || c == '"' || c == '`' }

  lemma {:induction false} Regroup<T>(a: seq<T>, b: seq<T>, c: seq<T>)
    ensures a + (b + c) == (a + b) + c
  {
  }
}
