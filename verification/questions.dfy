/** The arithmetic question generator. Every random draw the program makes
    (the operator picked from the enabled list and the two integers drawn
    for it) arrives here as an argument; the `requires` clauses give the
    ranges the draws come from. */
module Questions {

  /** The operator symbols the program uses; the minus, times and divide
      signs are the Unicode characters U+2212, U+00D7 and U+00F7. */
  const PLUS: string := "+"
  const MINUS: string := "\U{2212}"
  const TIMES: string := "\U{D7}"
  const DIVIDE: string := "\U{F7}"

  datatype Op = Add | Sub | Mul | Div

  /** The symbol a generated question carries for its operator. */
  function Symbol(op: Op): string
  {
    match op
    case Add => PLUS
    case Sub => MINUS
    case Mul => TIMES
    case Div => DIVIDE
  }

  /** Which generator an operator choice runs: the three known symbols
      select their own generator and every other string selects division. */
  function Dispatch(choice: string): (op: Op)
    ensures op == Add <==> choice == PLUS
    ensures op == Sub <==> choice == MINUS
    ensures op == Mul <==> choice == TIMES
    ensures op == Div <==> choice != PLUS && choice != MINUS && choice != TIMES
  {
    if choice == PLUS then Add
    else if choice == MINUS then Sub
    else if choice == TIMES then Mul
    else Div
  }

  /** The symbol of every operator dispatches back to that operator. */
  lemma SymbolDispatches(op: Op)
    ensures Dispatch(Symbol(op)) == op
  {
  }

  datatype Question = Question(a: int, b: int, op: Op, answer: int)

  function Max(x: int, y: int): int
  {
    if x >= y then x else y
  }

  predicate InRange(v: int, lo: int, hi: int)
  {
    lo <= v <= hi
  }

  /** The expected answer is the true value of `a op b`. Division is exact:
      non-zero divisor, no remainder. For a positive divisor Dafny's `/`
      and Python's floor division `//` agree. */
  predicate Correct(q: Question)
  {
    match q.op
    case Add => q.answer == q.a + q.b
    case Sub => q.answer == q.a - q.b
    case Mul => q.answer == q.a * q.b
    case Div => q.b != 0 && q.a % q.b == 0 && q.a / q.b == q.answer
  }

  /** A question the generator can produce for the range [lo, hi]. */
  predicate WellFormed(q: Question, lo: int, hi: int)
  {
    && Correct(q)
    && match q.op
       case Add => InRange(q.a, lo, hi) && InRange(q.b, lo, hi)
       case Mul => InRange(q.a, lo, hi) && InRange(q.b, lo, hi)
       case Sub => InRange(q.a, lo, hi) && InRange(q.b, lo, hi) && q.a >= q.b
       case Div => InRange(q.b, Max(lo, 1), hi) && InRange(q.answer, lo, hi)
  }

  /** Addition: the two draws are the operands, in draw order. */
  function GenAdd(lo: int, hi: int, x: int, y: int): (q: Question)
    requires InRange(x, lo, hi) && InRange(y, lo, hi)
    ensures q.op == Add && q.a == x && q.b == y
    ensures WellFormed(q, lo, hi)
  {
    Question(x, y, Add, x + y)
  }

  /** Subtraction: the draws are ordered so that the larger comes first,
      which keeps the answer non-negative. */
  function GenSub(lo: int, hi: int, x: int, y: int): (q: Question)
    requires InRange(x, lo, hi) && InRange(y, lo, hi)
    ensures q.op == Sub && multiset{q.a, q.b} == multiset{x, y}
    ensures q.a == Max(x, y)
    ensures q.answer >= 0
    ensures WellFormed(q, lo, hi)
  {
    var (a, b) := if y > x then (y, x) else (x, y);
    Question(a, b, Sub, a - b)
  }

  /** Multiplication: the two draws are the operands, in draw order. */
  function GenMul(lo: int, hi: int, x: int, y: int): (q: Question)
    requires InRange(x, lo, hi) && InRange(y, lo, hi)
    ensures q.op == Mul && q.a == x && q.b == y
    ensures WellFormed(q, lo, hi)
  {
    Question(x, y, Mul, x * y)
  }

  /** A non-zero multiple of a positive number is at least that number
      away from zero. */
  lemma MultipleMagnitude(d: int, k: int)
    requires d >= 1
    ensures k >= 1 ==> d * k >= d
    ensures k <= -1 ==> d * k <= -d
  {
  }

  /** Integer division of a product by a positive factor is exact. */
  lemma ExactQuotient(divisor: int, result: int)
    requires divisor >= 1
    ensures (divisor * result) % divisor == 0
    ensures (divisor * result) / divisor == result
  {
    var p := divisor * result;
    var q, m := p / divisor, p % divisor;
    assert p == divisor * q + m && 0 <= m < divisor;
    assert divisor * (result - q) == m;
    MultipleMagnitude(divisor, result - q);
  }

  /** Division: the divisor is drawn from [max(lo, 1), hi] and the quotient
      from [lo, hi]; the dividend is their product, so the division is
      exact and never by zero. */
  function GenDiv(lo: int, hi: int, divisor: int, result: int): (q: Question)
    requires InRange(divisor, Max(lo, 1), hi) && InRange(result, lo, hi)
    ensures q.op == Div && q.b == divisor && q.answer == result
    ensures q.b >= 1 && q.a == q.b * q.answer
    ensures WellFormed(q, lo, hi)
  {
    ExactQuotient(divisor, result);
    Question(divisor * result, divisor, Div, result)
  }

  /** The random draws behind one question: the operator string picked
      from the enabled list, then the two integers drawn for it (for
      division, the divisor first and the quotient second). */
  datatype Draw = Draw(choice: string, first: int, second: int)

  /** The draw could have come out of the program's random calls. */
  predicate DrawFits(d: Draw, ops: seq<string>, lo: int, hi: int)
  {
    && d.choice in ops
    && (if Dispatch(d.choice) == Div
        then InRange(d.first, Max(lo, 1), hi) && InRange(d.second, lo, hi)
        else InRange(d.first, lo, hi) && InRange(d.second, lo, hi))
  }

  /** One question from one draw. */
  function GenOne(d: Draw, ops: seq<string>, lo: int, hi: int): (q: Question)
    requires DrawFits(d, ops, lo, hi)
    ensures q.op == Dispatch(d.choice)
    ensures q.op == Add || q.op == Mul ==> q.a == d.first && q.b == d.second
    ensures q.op == Sub ==> q.a == Max(d.first, d.second) && multiset{q.a, q.b} == multiset{d.first, d.second}
    ensures q.op == Div ==> q.b == d.first && q.answer == d.second
    ensures WellFormed(q, lo, hi)
  {
    match Dispatch(d.choice)
    case Add => GenAdd(lo, hi, d.first, d.second)
    case Sub => GenSub(lo, hi, d.first, d.second)
    case Mul => GenMul(lo, hi, d.first, d.second)
    case Div => GenDiv(lo, hi, d.first, d.second)
  }

  /** A draw exists exactly when the program's random calls would not
      raise: the choice is one of the enabled operators, the range is not
      empty, and for division the range reaches 1. */
  lemma DrawAvailable(choice: string, ops: seq<string>, lo: int, hi: int)
    ensures (exists d: Draw :: d.choice == choice && DrawFits(d, ops, lo, hi))
            <==> (choice in ops && lo <= hi && (Dispatch(choice) == Div ==> 1 <= hi))
  {
    if choice in ops && lo <= hi && (Dispatch(choice) == Div ==> 1 <= hi) {
      var d := if Dispatch(choice) == Div then Draw(choice, Max(lo, 1), lo) else Draw(choice, lo, lo);
      assert DrawFits(d, ops, lo, hi);
    }
  }

  /** How many times the generator loop runs for a requested count. */
  function QuestionCount(n: int): nat
  {
    if n < 0 then 0 else n
  }

  /** The question list for `n` requested questions: question `i` is built
      from draw `i`, its operator is the one its choice dispatches to, and
      it is well formed for the range. */
  function GenerateQuestions(n: int, ops: seq<string>, lo: int, hi: int, draws: seq<Draw>): (qs: seq<Question>)
    requires |draws| == QuestionCount(n)
    requires forall i :: 0 <= i < |draws| ==> DrawFits(draws[i], ops, lo, hi)
    ensures |qs| == QuestionCount(n)
    ensures forall i :: 0 <= i < |qs| ==> qs[i] == GenOne(draws[i], ops, lo, hi)
    ensures forall i :: 0 <= i < |qs| ==> qs[i].op == Dispatch(draws[i].choice)
    ensures forall i :: 0 <= i < |qs| ==> WellFormed(qs[i], lo, hi)
    decreases QuestionCount(n)
  {
    if n <= 0 then []
    else
      var last := draws[|draws| - 1];
      GenerateQuestions(n - 1, ops, lo, hi, draws[..|draws| - 1]) + [GenOne(last, ops, lo, hi)]
  }
}
