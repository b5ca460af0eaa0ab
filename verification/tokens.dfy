/** Values shared by every stage of the calculator: the error kinds, a
    failure-compatible result type, and the tokens of a postfix sequence. */
module Tokens {

  /** The ways a calculation can fail. mathExprParser.js throws for the
      first and returns NaN for the second; both are results here. */
  datatype CalcError =
    | InvalidExpression   // no literal where a number is required, or unbalanced parentheses
    | NotANumber          // an operator without two numeric operands, or no numeric result
    | DivisionByZero      // stands in for the IEEE infinities, which are not modelled

  /** Success or failure; usable with `:-`. */
  datatype Result<+T> = Success(value: T) | Failure(error: CalcError) {

    predicate IsFailure() {
      Failure?
    }

    function PropagateFailure<U>(): Result<U>
      requires Failure?
    {
      Failure(error)
    }

    function Extract(): T
      requires Success?
    {
      value
    }
  }

  datatype Option<+T> = None | Some(value: T)

  /** One entry of the postfix (RPN) sequence. mathExprParser.js keeps entries as
      strings: a number's decimal form, the string "NaN", or an operator
      symbol. */
  datatype Token = Num(value: real) | NaN | Op(symbol: char)

  /** The operator symbols of a token sequence, as a multiset. */
  function OpSymbols(ts: seq<Token>): multiset<char>
  {
    if ts == [] then multiset{}
    else OpSymbols(ts[..|ts| - 1]) + (if ts[|ts| - 1].Op? then multiset{ts[|ts| - 1].symbol} else multiset{})
  }

  lemma {:induction false} OpSymbolsAppend(a: seq<Token>, b: seq<Token>)
    ensures OpSymbols(a + b) == OpSymbols(a) + OpSymbols(b)
    decreases |b|
  {
    if b == [] {
      assert a + b == a;
    } else {
      var b' := b[..|b| - 1];
      assert (a + b)[..|a + b| - 1] == a + b';
      OpSymbolsAppend(a, b');
    }
  }
}
