/** What a dialect takes each token of a statement to be. */
module SqlMeaning {
  import opened SqlLexer
  import opened ReservedWords

  datatype Atom =
    | Str(value: string)                       // a string value
    | Name(value: string)                      // an identifier
    | Bare(word: string)                       // a word neither dialect has a special use for
    | Keyword(word: string)                    // a word the dialect reserves
    | Mark(c: char)                            // punctuation, digits, operators
    | Unterminated(isString: bool, text: string)
    | Remark

  /** Double quotes hold an identifier in SQLite and a string in MySQL. */
  predicate OpensString(d: Dialect, q: char) { q == '\'' || (q == '"' && d.Mysql?) }

  /** `words` are the reserved words that are column names, which only MySQL reserves. */
  function AtomOf(d: Dialect, words: set<string>, t: Token): Atom {
    match t
    case Span(q, b, closed) =>
      if !closed then Unterminated(OpensString(d, q), b)
      else if OpensString(d, q) then Str(Value(Escapes(d, q), q, b))
      else Name(Value(Escapes(d, q), q, b))
    case Comment(_) => Remark
    case Word(w) => if Lower(w) !in words then Bare(w) else if d.Mysql? then Keyword(w) else Name(w)
    case Sym(c) => Mark(c)
  }

  function Atoms(d: Dialect, words: set<string>, ts: seq<Token>): (r: seq<Atom>)
    ensures |r| == |ts|
    ensures forall i :: 0 <= i < |ts| ==> r[i] == AtomOf(d, words, ts[i])
  {
    if ts == [] then [] else [AtomOf(d, words, ts[0])] + Atoms(d, words, ts[1..])
  }

  /** The statement as the dialect reads it. */
  function Reading(d: Dialect, words: set<string>, s: string): seq<Atom> {
    Atoms(d, words, Lex(d, s))
  }

  lemma ReadingStep(d: Dialect, words: set<string>, s: string)
    requires s != ""
    ensures Reading(d, words, s) == [AtomOf(d, words, First(d, s))] + Reading(d, words, Rest(d, s))
  {
    LexStep(d, s);
  }
}
