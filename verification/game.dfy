/** The per-session game state and the reward inventory. The program keeps
    these in a process-wide session dictionary; here the dictionary is an
    explicit value, `Session`, passed in and returned. */
module Game {
  import opened Outcomes
  import opened Blocks
  import opened Questions

  /** Defaults of the reset action. */
  const DEFAULT_QUESTIONS: int := 10
  const DEFAULT_MIN: int := 0
  const DEFAULT_MAX: int := 12
  const DEFAULT_OPS: seq<string> := [PLUS, MINUS, TIMES, DIVIDE]

  /** Attempts a question allows before it is closed. */
  const ATTEMPTS: int := 3

  /** The keys the reset action writes. */
  datatype Play = Play(
    questions: seq<Question>,
    idx: int,
    attemptsLeft: int,
    score: int,
    finished: bool,
    feedback: string,
    questionDone: bool,
    userAnswer: Option<int>)

  /** The session dictionary: `play` is absent until the first reset, and
      `inventory` (the earned block names, in the order earned) is absent
      until something creates it. */
  datatype Session = Session(play: Option<Play>, inventory: Option<seq<string>>)

  /** A brand-new session with nothing stored in it. */
  const EmptySession: Session := Session(None, None)

  /** The bounds a running session keeps: the index and score stay within
      the question count, the attempts within the per-question allowance. */
  predicate PlayInvariant(p: Play)
  {
    && 0 <= p.idx <= |p.questions|
    && 0 <= p.score <= |p.questions|
    && 0 <= p.attemptsLeft <= ATTEMPTS
    && (p.finished ==> p.idx == |p.questions|)
  }

  /** The operator list the reset action uses. */
  function EffectiveOps(ops: Option<seq<string>>): seq<string>
  {
    match ops
    case None => DEFAULT_OPS
    case Some(o) => o
  }

  /** The draws the reset action needs: one per question, each possible
      for the enabled operators and the range. */
  predicate DrawsFit(n: int, ops: seq<string>, lo: int, hi: int, draws: seq<Draw>)
  {
    && |draws| == QuestionCount(n)
    && forall i :: 0 <= i < |draws| ==> DrawFits(draws[i], ops, lo, hi)
  }

  /** Start (or restart) a game: a fresh question list from the draws,
      index, score and answer state back at their start values, and the
      inventory kept if it exists and created empty otherwise. */
  function ResetGame(s: Session, n: int, lo: int, hi: int, ops: Option<seq<string>>, draws: seq<Draw>): (r: Session)
    requires DrawsFit(n, EffectiveOps(ops), lo, hi, draws)
    ensures r.play.Some?
    ensures |r.play.value.questions| == QuestionCount(n)
    ensures forall i :: 0 <= i < |r.play.value.questions| ==>
              r.play.value.questions[i] == GenOne(draws[i], EffectiveOps(ops), lo, hi)
    ensures forall i :: 0 <= i < |r.play.value.questions| ==>
              && r.play.value.questions[i].op == Dispatch(draws[i].choice)
              && WellFormed(r.play.value.questions[i], lo, hi)
    ensures r.play.value.idx == 0 && r.play.value.attemptsLeft == ATTEMPTS && r.play.value.score == 0
    ensures !r.play.value.finished && !r.play.value.questionDone
    ensures r.play.value.feedback == "" && r.play.value.userAnswer == None
    ensures PlayInvariant(r.play.value)
    ensures s.inventory.Some? ==> r.inventory == s.inventory
    ensures s.inventory.None? ==> r.inventory == Some([])
  {
    var qs := GenerateQuestions(n, EffectiveOps(ops), lo, hi, draws);
    var p := Play(qs, 0, ATTEMPTS, 0, false, "", false, None);
    Session(Some(p), if s.inventory.Some? then s.inventory else Some([]))
  }

  /** The first reset of a new session with every default. Every operator
      `random.choice` can pick from the default list has a draw in the
      default range, so none of the random calls can raise; fitting draws
      exist, and every reset on fitting draws yields ten questions and a
      new, empty inventory. */
  lemma DefaultFirstReset()
    ensures forall choice :: choice in DEFAULT_OPS ==>
              exists d: Draw :: d.choice == choice && DrawFits(d, DEFAULT_OPS, DEFAULT_MIN, DEFAULT_MAX)
    ensures forall draws: seq<Draw> :: DrawsFit(DEFAULT_QUESTIONS, DEFAULT_OPS, DEFAULT_MIN, DEFAULT_MAX, draws) ==>
              var r := ResetGame(EmptySession, DEFAULT_QUESTIONS, DEFAULT_MIN, DEFAULT_MAX, None, draws);
              |r.play.value.questions| == 10 && r.inventory == Some([])
    ensures exists draws: seq<Draw> ::
              && DrawsFit(DEFAULT_QUESTIONS, DEFAULT_OPS, DEFAULT_MIN, DEFAULT_MAX, draws)
              && var r := ResetGame(EmptySession, DEFAULT_QUESTIONS, DEFAULT_MIN, DEFAULT_MAX, None, draws);
                 |r.play.value.questions| == 10 && r.inventory == Some([])
  {
    forall choice | choice in DEFAULT_OPS
      ensures exists d: Draw :: d.choice == choice && DrawFits(d, DEFAULT_OPS, DEFAULT_MIN, DEFAULT_MAX)
    {
      DrawAvailable(choice, DEFAULT_OPS, DEFAULT_MIN, DEFAULT_MAX);
    }
    var draws := seq(10, i => Draw(PLUS, DEFAULT_MIN, DEFAULT_MAX));
    assert DrawsFit(DEFAULT_QUESTIONS, DEFAULT_OPS, DEFAULT_MIN, DEFAULT_MAX, draws);
  }

  /** The arguments of one reset call: its settings and the fresh random
      draws that call makes. */
  datatype ResetArgs = ResetArgs(n: int, lo: int, hi: int, ops: Option<seq<string>>, draws: seq<Draw>)

  predicate ArgsFit(a: ResetArgs)
  {
    DrawsFit(a.n, EffectiveOps(a.ops), a.lo, a.hi, a.draws)
  }

  /** Successive resets, each with its own settings and draws. */
  function ResetSeq(s: Session, rs: seq<ResetArgs>): Session
    requires forall i :: 0 <= i < |rs| ==> ArgsFit(rs[i])
    decreases |rs|
  {
    if |rs| == 0 then s
    else
      var a := rs[|rs| - 1];
      assert ArgsFit(a);
      ResetGame(ResetSeq(s, rs[..|rs| - 1]), a.n, a.lo, a.hi, a.ops, a.draws)
  }

  /** A reset never changes an inventory that exists, so whatever resets
      follow, with whatever settings and draws, the earned blocks survive
      them; an inventory that did not exist is created empty by the first. */
  lemma {:induction false} ResetsKeepInventory(s: Session, rs: seq<ResetArgs>)
    requires forall i :: 0 <= i < |rs| ==> ArgsFit(rs[i])
    ensures ResetSeq(s, rs).inventory == (if |rs| == 0 || s.inventory.Some? then s.inventory else Some([]))
    decreases |rs|
  {
    if |rs| > 0 {
      ResetsKeepInventory(s, rs[..|rs| - 1]);
    }
  }

  /** How many times `name` occurs in the list. */
  function Occurrences(inv: seq<string>, name: string): nat
    decreases |inv|
  {
    if |inv| == 0 then 0
    else Occurrences(inv[..|inv| - 1], name) + (if inv[|inv| - 1] == name then 1 else 0)
  }

  /** The occurrence count agrees with the multiset of the list. */
  lemma {:induction false} OccurrencesIsMultiplicity(inv: seq<string>, name: string)
    ensures Occurrences(inv, name) == multiset(inv)[name]
    decreases |inv|
  {
    if |inv| > 0 {
      var init, last := inv[..|inv| - 1], inv[|inv| - 1];
      assert inv == init + [last];
      OccurrencesIsMultiplicity(init, name);
    }
  }

  /** The counter of the earned blocks: a key for each name that occurs
      (absent inventory counts as empty), mapped to how often it occurs. */
  function InventoryCounts(s: Session): (c: map<string, nat>)
    ensures forall name :: name in c <==> (s.inventory.Some? && name in s.inventory.value)
    ensures forall name :: name in c ==> c[name] == multiset(s.inventory.value)[name] && c[name] >= 1
  {
    var inv := if s.inventory.Some? then s.inventory.value else [];
    var c := map name | name in inv :: Occurrences(inv, name);
    assert forall name :: name in c ==> c[name] == multiset(inv)[name] && c[name] >= 1 by {
      forall name | name in c
        ensures c[name] == multiset(inv)[name] && c[name] >= 1
      {
        OccurrencesIsMultiplicity(inv, name);
      }
    }
    c
  }

  /** The count the counter reports for a name, zero for a missing key. */
  function CountOf(c: map<string, nat>, name: string): nat
  {
    if name in c then c[name] else 0
  }

  datatype AwardError = NoInventory

  /** Give the player the block at catalog index `choice` (the weighted
      draw's outcome): its name is appended to the inventory and returned.
      An inventory that was never created cannot be appended to. */
  function AwardBlock(s: Session, choice: nat): (r: Result<(Session, string), AwardError>)
    requires choice < |Catalog|
    ensures r.Success? <==> s.inventory.Some?
    ensures r.Success? ==>
              var (s', name) := r.value;
              && IsBlockName(name)
              && name == Names()[choice]
              && s'.play == s.play
              && s'.inventory.Some?
              && |s'.inventory.value| == |s.inventory.value| + 1
              && s'.inventory.value == s.inventory.value + [name]
  {
    match s.inventory
    case None => Failure(NoInventory)
    case Some(inv) =>
      var name := Names()[choice];
      Success((s.(inventory := Some(inv + [name])), name))
  }

  /** After an award the awarded name's count is one higher and every
      other name's count is what it was. */
  lemma AwardBumpsOneCount(s: Session, choice: nat, other: string)
    requires choice < |Catalog|
    requires AwardBlock(s, choice).Success?
    ensures var (s', name) := AwardBlock(s, choice).value;
            && CountOf(InventoryCounts(s'), name) == CountOf(InventoryCounts(s), name) + 1
            && (other != name ==> CountOf(InventoryCounts(s'), other) == CountOf(InventoryCounts(s), other))
  {
  }
}
