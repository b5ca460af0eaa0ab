/** The operator table: which characters are binary operators, how tightly
    each binds, and what each computes (mathExprParser.js lines 16-58). */
module OperatorTable {
  import opened Tokens

  /** Exactly the four arithmetic symbols are operators. */
  predicate IsValidOperator(c: char)
  {
    c == '*' || c == '/' || c == '+' || c == '-'
  }

  /** Precedence rank: the LOWER the rank, the earlier the operator is
      applied. Every non-operator gets the sentinel rank 3, which is never
      popped in favour of an operator. */
  function Precedence(c: char): (p: nat)
    ensures p == 1 <==> c == '*' || c == '/'
    ensures p == 2 <==> c == '+' || c == '-'
    ensures p == 3 <==> !IsValidOperator(c)
  {
    if !IsValidOperator(c) then 3
    else if c == '*' || c == '/' then 1
    else 2
  }

  /** The binary rule of an operator. A division by zero fails (the program
      yields an IEEE infinity or NaN), and a non-operator fails as the
      program's NaN-returning default executor does. */
  function Execute(c: char, a: real, b: real): (r: Result<real>)
    ensures r.Success? <==> IsValidOperator(c) && !(c == '/' && b == 0.0)
    ensures !IsValidOperator(c) ==> r == Failure(NotANumber)
    ensures IsValidOperator(c) && r.Failure? ==> r.error == DivisionByZero
  {
    match c
    case '*' => Success(a * b)
    case '/' => if b == 0.0 then Failure(DivisionByZero) else Success(a / b)
    case '+' => Success(a + b)
    case '-' => Success(a - b)
    case _ => Failure(NotANumber)
  }

  /** What each operator computes (mathExprParser.js lines 47-54): `+` and
      `*` give the sum and the product; `-` gives the number that, added to
      `b`, gives back `a`; `/` by a non-zero `b` gives the number that, times
      `b`, gives back `a`. Kept apart from the contract of `Execute` so that
      its non-linear facts stay out of every proof that merely mentions an
      operator. */
  lemma ExecuteValues(c: char, a: real, b: real)
    ensures c == '+' ==> Execute(c, a, b) == Success(a + b)
    ensures c == '*' ==> Execute(c, a, b) == Success(a * b)
    ensures c == '-' ==> Execute(c, a, b).Success? && Execute(c, a, b).value + b == a
    ensures c == '/' && b != 0.0 ==> Execute(c, a, b).Success? && Execute(c, a, b).value * b == a
  {
  }
}
