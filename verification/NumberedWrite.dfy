/**
 * The retry loop of a numbered maintenance write (numbered-maintenance-write.ts): prepare a document
 * number outside the transaction, do the work inside one, and start over for another number or another
 * try, each a bounded number of times.
 *
 * The idempotency service either replays a stored answer or executes the work and stores its answer in
 * the same transaction; what each transaction and each preparation will meet is left open.
 */
module NumberedWrite {
  import opened Results

  const NUMBER_RETRY := 3

  datatype Failure =
    | InvalidTarget
    | PlantMoved
    | KnownRequest(code: string, columns: Option<seq<string>>)
    | Thrown(message: string)

  datatype Prepared = Prepared(plant: int, documentNo: string)

  /** One transaction: `plant` is the target's plant inside it, `commit` a failure to commit. */
  datatype Round<T> =
    | Replay(body: T)
    | Blocked(failure: Failure)
    | Execute(plant: Option<int>, work: string -> Result<T, Failure>, commit: Option<Failure>)

  datatype Preparation = Preparation(plant: Option<int>, number: Result<string, Failure>)

  datatype End<T> = Answered(body: T) | NumberNeeded | Failed(failure: Failure)

  /** How a transaction ends for the number it was given. */
  function EndOf<T>(round: Round<T>, prepared: Option<Prepared>): End<T> {
    match round
    case Replay(body) => Answered(body)
    case Blocked(failure) => Failed(failure)
    case Execute(plant, work, commit) =>
      if prepared.None? then NumberNeeded
      else if plant.None? then Failed(InvalidTarget)
      else if plant.value != prepared.value.plant then Failed(PlantMoved)
      else
        match work(prepared.value.documentNo)
        case Err(failure) => Failed(failure)
        case Ok(body) => if commit.Some? then Failed(commit.value) else Answered(body)
  }

  datatype WorkRetry = WorkRetry(maxRetries: nat, matches: Failure -> bool)

  datatype Reaction = TryAgain | NewNumber | GiveUp

  predicate NumberDuplicate(failure: Failure, column: string) {
    failure.KnownRequest? && failure.code == "P2002" && failure.columns.Some? && column in failure.columns.value
  }

  /**
   * The work's own retry is asked first; a unique violation, with the number's column among those it
   * names, asks for another number; everything else ends the call.
   */
  function ReactionTo(failure: Failure, retry: Option<WorkRetry>, column: string): Reaction {
    match (retry, failure)
    case (Some(own), _) =>
      if own.matches(failure) then TryAgain
      else if failure.KnownRequest? && NamesColumn(failure.code, failure.columns, column) then NewNumber
      else GiveUp
    case (None, KnownRequest(code, columns)) => if NamesColumn(code, columns, column) then NewNumber else GiveUp
    case (None, _) => GiveUp
  }

  lemma ReactionIs(failure: Failure, retry: Option<WorkRetry>, column: string)
    ensures ReactionTo(failure, retry, column) ==
            if retry.Some? && retry.value.matches(failure) then TryAgain
            else if NumberDuplicate(failure, column) then NewNumber
            else GiveUp
  {
  }

  predicate NamesColumn(code: string, columns: Option<seq<string>>, column: string) {
    code == "P2002" && columns.Some? && exists i :: 0 <= i < |columns.value| && columns.value[i] == column
  }

  /** After this end the call needs a number it does not have. */
  predicate Wants<T>(end: End<T>, retry: Option<WorkRetry>, column: string) {
    end.NumberNeeded? || (end.Failed? && ReactionTo(end.failure, retry, column) == NewNumber)
  }

  function CountReactions<T>(ends: seq<End<T>>, retry: Option<WorkRetry>, column: string, reaction: Reaction): nat {
    if ends == [] then 0
    else
      var last := ends[|ends| - 1];
      CountReactions(ends[..|ends| - 1], retry, column, reaction)
      + (if last.Failed? && ReactionTo(last.failure, retry, column) == reaction then 1 else 0)
  }

  lemma CountPush<T>(ends: seq<End<T>>, end: End<T>, retry: Option<WorkRetry>, column: string, reaction: Reaction)
    ensures CountReactions(ends + [end], retry, column, reaction)
         == CountReactions(ends, retry, column, reaction)
            + (if end.Failed? && ReactionTo(end.failure, retry, column) == reaction then 1 else 0)
  {
    assert (ends + [end])[..|ends|] == ends;
  }

  /** The loop went on after every one of these ends. */
  predicate WentOn<T>(ends: seq<End<T>>, retry: Option<WorkRetry>, column: string) {
    forall k :: 0 <= k < |ends| ==>
      !ends[k].Answered? && (ends[k].Failed? ==> ReactionTo(ends[k].failure, retry, column) != GiveUp)
  }

  lemma WentOnPush<T>(ends: seq<End<T>>, end: End<T>, retry: Option<WorkRetry>, column: string)
    requires WentOn(ends, retry, column) && !end.Answered?
    requires end.Failed? ==> ReactionTo(end.failure, retry, column) != GiveUp
    ensures WentOn(ends + [end], retry, column)
  {
  }

  function MaxRetries(retry: Option<WorkRetry>): nat {
    if retry.Some? then retry.value.maxRetries else 0
  }

  /** The prepared number and the retries made so far. */
  datatype Progress = Progress(prepared: Option<Prepared>, numberRetries: nat, workRetries: nat)

  function Left(progress: Progress, retry: Option<WorkRetry>): int {
    (if progress.prepared.None? then 1 else 0) + (NUMBER_RETRY - progress.numberRetries)
    + (MaxRetries(retry) - progress.workRetries)
  }

  // ----- the course of a call: the ends of its transactions, and how many numbers it had before each

  /** The last of the first n numbers. */
  ghost function NumberAfter(issued: seq<Prepared>, n: nat): Option<Prepared>
    requires n <= |issued|
  {
    if n == 0 then None else Some(issued[n - 1])
  }

  /** The numbers were prepared one after the other, and each transaction was given the last one before it. */
  ghost predicate Given<T>(rounds: nat -> Round<T>, preparations: nat -> Preparation, ends: seq<End<T>>, made: seq<nat>,
                           issued: seq<Prepared>)
  {
    && |made| == |ends|
    && (forall j :: 0 <= j < |issued| ==>
          preparations(j) == Preparation(Some(issued[j].plant), Ok(issued[j].documentNo)))
    && (forall k :: 0 <= k < |ends| ==>
          made[k] <= |issued| && ends[k] == EndOf(rounds(k), NumberAfter(issued, made[k])))
  }

  /** One more number after a transaction that ended for want of one. */
  ghost function MadeAfter<T>(end: End<T>, before: nat, retry: Option<WorkRetry>, column: string): nat {
    before + if Wants(end, retry, column) then 1 else 0
  }

  ghost predicate OneByOne<T>(ends: seq<End<T>>, made: seq<nat>, retry: Option<WorkRetry>, column: string) {
    && |made| == |ends|
    && forall k :: 0 < k < |ends| ==> made[k] == MadeAfter(ends[k - 1], made[k - 1], retry, column)
  }

  lemma GivenIssue<T>(rounds: nat -> Round<T>, preparations: nat -> Preparation, ends: seq<End<T>>, made: seq<nat>,
                      issued: seq<Prepared>, next: Prepared)
    requires Given(rounds, preparations, ends, made, issued)
    requires preparations(|issued|) == Preparation(Some(next.plant), Ok(next.documentNo))
    ensures Given(rounds, preparations, ends, made, issued + [next])
  {
    forall k | 0 <= k < |ends| ensures NumberAfter(issued + [next], made[k]) == NumberAfter(issued, made[k]) {
    }
    hide EndOf, NumberAfter;
  }

  lemma GivenEnd<T>(rounds: nat -> Round<T>, preparations: nat -> Preparation, ends: seq<End<T>>, made: seq<nat>,
                    issued: seq<Prepared>, end: End<T>)
    requires Given(rounds, preparations, ends, made, issued)
    requires end == EndOf(rounds(|ends|), NumberAfter(issued, |issued|))
    ensures Given(rounds, preparations, ends + [end], made + [|issued|], issued)
  {
    hide EndOf, NumberAfter;
  }

  lemma OneByOnePush<T>(ends: seq<End<T>>, made: seq<nat>, end: End<T>, n: nat, retry: Option<WorkRetry>,
                        column: string)
    requires OneByOne(ends, made, retry, column)
    requires ends != [] ==> n == MadeAfter(ends[|ends| - 1], made[|ends| - 1], retry, column)
    ensures OneByOne(ends + [end], made + [n], retry, column) && |ends| == |made|
  {
    hide MadeAfter;
  }

  datatype WriteError = Raised(failure: Failure) | Exhausted(failure: Failure) | NumberTaken

  /** The database and the numbering service as one call meets them. */
  class Service<T> {
    const rounds: nat -> Round<T>
    const preparations: nat -> Preparation
    var ends: seq<End<T>>
    var prepares: nat
    var issued: seq<Prepared>
    var asked: nat
    var committed: seq<Prepared>
    /** How many numbers had been prepared before each transaction. */
    ghost var made: seq<nat>

    constructor (rounds: nat -> Round<T>, preparations: nat -> Preparation)
      ensures this.rounds == rounds && this.preparations == preparations
      ensures ends == [] && prepares == 0 && issued == [] && asked == 0 && committed == [] && made == []
    {
      this.rounds := rounds;
      this.preparations := preparations;
      ends, prepares, issued, asked, committed, made := [], 0, [], 0, [], [];
    }

    method Transaction(prepared: Option<Prepared>) returns (end: End<T>)
      modifies this`ends, this`committed, this`made
      ensures end == EndOf(rounds(|old(ends)|), prepared)
      ensures ends == old(ends) + [end] && made == old(made) + [|issued|]
      ensures end == NumberNeeded ==> prepared == None
      ensures var round := rounds(|old(ends)|);
              round.Execute? && end.Answered? ==>
                && prepared.Some? && committed == old(committed) + [prepared.value]
                && round.plant == Some(prepared.value.plant) && round.commit == None
                && round.work(prepared.value.documentNo) == Ok(end.body)
      ensures !(rounds(|old(ends)|).Execute? && end.Answered?) ==> committed == old(committed)
    {
      var round := rounds(|ends|);
      made := made + [|issued|];
      match round {
        case Replay(body) =>
          end := Answered(body);
        case Blocked(failure) =>
          end := Failed(failure);
        case Execute(plant, work, commit) =>
          end := Work(plant, work, prepared);
          if end.Answered? && commit.Some? {
            end := Failed(commit.value);
          } else if end.Answered? {
            committed := committed + [prepared.value];
          }
      }
      ends := ends + [end];
    }

    /** What is done inside the transaction: the number must be there, and for the plant the target has now. */
    method Work(plant: Option<int>, work: string -> Result<T, Failure>, prepared: Option<Prepared>)
      returns (end: End<T>)
      ensures end == EndOf(Execute(plant, work, None), prepared)
      ensures end.Answered? ==> prepared.Some?
    {
      if prepared == None {
        return NumberNeeded;
      }
      if plant == None {
        return Failed(InvalidTarget);
      }
      if plant.value != prepared.value.plant {
        return Failed(PlantMoved);
      }
      var body := work(prepared.value.documentNo);
      end := if body.Ok? then Answered(body.value) else Failed(body.error);
    }

    /** Reads the target's plant and asks for the next number of that plant. */
    method Prepare() returns (r: Result<Prepared, Failure>)
      modifies this`prepares, this`issued, this`asked
      ensures prepares == old(prepares) + 1
      ensures asked == old(asked) + (if preparations(old(prepares)).plant.Some? then 1 else 0)
      ensures r.Ok? ==> issued == old(issued) + [r.value]
      ensures r.Ok? ==> preparations(old(prepares)) == Preparation(Some(r.value.plant), Ok(r.value.documentNo))
      ensures r.Err? ==> issued == old(issued) && PrepareFailed(r.error)
    {
      var preparation := preparations(prepares);
      prepares := prepares + 1;
      if preparation.plant == None {
        return Err(InvalidTarget);
      }
      asked := asked + 1;
      if preparation.number.Err? {
        return Err(preparation.number.error);
      }
      r := Ok(Prepared(preparation.plant.value, preparation.number.value));
      issued := issued + [r.value];
    }

    /**
     * Ends after at most five transactions more than the work may be retried, and at most four numbers.
     * The answer is that of the last transaction; only that one may have committed, once, with a number
     * prepared for the plant the target has inside it. With a stored answer no number is asked for, and
     * without a record nothing is begun before there is one.
     */
    method Run(hasRecord: bool, retry: Option<WorkRetry>, column: string) returns (r: Result<T, WriteError>)
      requires ends == [] && prepares == 0 && issued == [] && asked == 0 && committed == [] && made == []
      modifies this
      ensures asked <= 4
      ensures |ends| <= 5 + MaxRetries(retry)
      ensures Ended(r, retry, column)
      ensures CommittedOnce()
      ensures History(hasRecord, retry, column)
      ensures hasRecord && rounds(0).Replay? ==> r == Ok(rounds(0).body) && prepares == 0 && asked == 0 && |ends| == 1
      ensures !hasRecord && preparations(0).plant == None ==> ends == [] && r == Err(Raised(InvalidTarget))
      ensures !hasRecord && preparations(0).plant.Some? && preparations(0).number.Err? ==>
                ends == [] && r == Err(Raised(preparations(0).number.error))
      ensures ends != [] ==> (ends[0] == NumberNeeded <==> hasRecord && rounds(0).Execute?)
    {
      hide Left, CountReactions;
      var prepared: Option<Prepared> := None;
      if !hasRecord {
        var first := Prepare();
        if first.Err? {
          return Err(Raised(first.error));
        }
        prepared := Some(first.value);
      }
      Begun(prepared, retry, column);
      var progress := Progress(prepared, 0, 0);
      while true
        invariant Going(ends, progress, retry, column)
        invariant Told(retry, column) && Ready(retry, column)
        invariant (if made == [] then |issued| else made[0]) == (if hasRecord then 0 else 1)
        decreases Left(progress, retry)
      {
        var ended: Option<Result<T, WriteError>>;
        ended, progress := Attempt(progress, retry, column);
        if ended.Some? {
          Remembered(ended.value, hasRecord, retry, column);
          return ended.value;
        }
      }
    }

    /** Before the first transaction. */
    lemma Begun(prepared: Option<Prepared>, retry: Option<WorkRetry>, column: string)
      requires ends == [] && made == [] && committed == [] && |issued| == prepares == asked <= 1
      requires prepared == (if issued == [] then None else Some(issued[0]))
      requires issued != [] ==> preparations(0) == Preparation(Some(issued[0].plant), Ok(issued[0].documentNo))
      ensures Going(ends, Progress(prepared, 0, 0), retry, column) && Told(retry, column) && Ready(retry, column)
    {
    }

    /** The transaction of a turn, with the number at hand. */
    method Turn(progress: Progress, retry: Option<WorkRetry>, column: string) returns (end: End<T>)
      requires Going(ends, progress, retry, column)
      requires Told(retry, column) && Ready(retry, column)
      modifies this`ends, this`committed, this`made
      ensures ends == old(ends) + [end] && made == old(made) + [|issued|] && |ends| == |made|
      ensures Told(retry, column) && asked <= 4 && |ends| <= 5 + MaxRetries(retry)
      ensures end.Answered? ==> Ended(Ok(end.body), retry, column) && CommittedOnce()
      ensures !end.Answered? ==> Going(ends[..|ends| - 1], progress, retry, column)
      ensures end.NumberNeeded? ==> progress.prepared.None?
    {
      hide CountReactions, WentOn, ReactionTo, NumberDuplicate, MaxRetries, Given, OneByOne, Ended, EndOf;
      ghost var before := ends;
      GivenEnd(rounds, preparations, ends, made, issued, EndOf(rounds(|ends|), progress.prepared));
      OneByOnePush(ends, made, EndOf(rounds(|ends|), progress.prepared), |issued|, retry, column);
      end := Transaction(progress.prepared);
      assert ends[..|ends| - 1] == before;
      if end.Answered? { Answer(end.body, retry, column); }
    }

    /** A transaction that only lacked a number counts as no retry. */
    lemma Needed(progress: Progress, retry: Option<WorkRetry>, column: string)
      requires ends != [] && ends[|ends| - 1] == NumberNeeded
      requires Going(ends[..|ends| - 1], progress, retry, column)
      ensures WentOn(ends, retry, column) && progress.numberRetries <= NUMBER_RETRY
      ensures CountReactions(ends, retry, column, NewNumber) == progress.numberRetries
      ensures CountReactions(ends, retry, column, TryAgain) == progress.workRetries
    {
      hide CountReactions, WentOn, ReactionTo;
      var before := ends[..|ends| - 1];
      assert ends == before + [NumberNeeded];
      CountPush(before, NumberNeeded, retry, column, NewNumber);
      CountPush(before, NumberNeeded, retry, column, TryAgain);
      WentOnPush(before, NumberNeeded, retry, column);
    }

    /** One turn of the loop: it ends the call or leaves less to try. */
    method Attempt(progress: Progress, retry: Option<WorkRetry>, column: string)
      returns (ended: Option<Result<T, WriteError>>, next: Progress)
      requires Going(ends, progress, retry, column)
      requires Told(retry, column) && Ready(retry, column)
      modifies this
      ensures made == old(made) + [|old(issued)|] && |ends| == |made|
      ensures asked <= 4 && |ends| <= 5 + MaxRetries(retry)
      ensures Told(retry, column)
      ensures ended.Some? ==> Ended(ended.value, retry, column) && CommittedOnce() && |issued| == made[|ends| - 1]
      ensures ended.None? ==> Ready(retry, column) && Going(ends, next, retry, column)
      ensures ended.None? ==> 0 <= Left(next, retry) < Left(progress, retry)
    {
      hide CountReactions, WentOn, Ended, Left, ReactionTo, NumberDuplicate, PrepareFailed, MaxRetries, Going;
      hide Given, OneByOne, EndOf;
      var end := Turn(progress, retry, column);
      next := progress;
      match end
      case Answered(body) =>
        ended := Some(Ok(body));
      case NumberNeeded =>
        Needed(progress, retry, column);
        ended, next := AnotherNumber(0, progress, retry, column);
      case Failed(failure) =>
        ended, next := React(failure, progress, retry, column);
    }

    lemma Answer(body: T, retry: Option<WorkRetry>, column: string)
      requires ends != [] && WentOn(ends[..|ends| - 1], retry, column) && prepares == asked == |issued|
      requires ends[|ends| - 1] == Answered(body)
      ensures Ended(Ok(body), retry, column)
    {
    }

    /** The three ways a failed transaction ends the call. */
    lemma Ending(failure: Failure, retry: Option<WorkRetry>, column: string)
      requires ends != [] && WentOn(ends[..|ends| - 1], retry, column) && prepares == asked == |issued|
      requires ends[|ends| - 1] == Failed(failure)
      ensures ReactionTo(failure, retry, column) == GiveUp ==> Ended(Err(Raised(failure)), retry, column)
      ensures ReactionTo(failure, retry, column) == TryAgain
              && CountReactions(ends, retry, column, TryAgain) == MaxRetries(retry) + 1
              ==> Ended(Err(Exhausted(failure)), retry, column)
      ensures ReactionTo(failure, retry, column) == NewNumber
              && CountReactions(ends, retry, column, NewNumber) == NUMBER_RETRY + 1
              ==> Ended(Err(NumberTaken), retry, column)
    {
      hide CountReactions, WentOn, ReactionTo;
    }

    method React(failure: Failure, progress: Progress, retry: Option<WorkRetry>, column: string)
      returns (ended: Option<Result<T, WriteError>>, next: Progress)
      requires ends != [] && ends[|ends| - 1] == Failed(failure)
      requires Going(ends[..|ends| - 1], progress, retry, column)
      requires Told(retry, column) && |issued| == made[|ends| - 1]
      modifies this`prepares, this`issued, this`asked
      ensures asked <= 4 && Told(retry, column)
      ensures ended.Some? ==> Ended(ended.value, retry, column) && committed == [] && |issued| == made[|ends| - 1]
      ensures ended.None? ==> Ready(retry, column) && Going(ends, next, retry, column)
      ensures ended.None? ==> 0 <= Left(next, retry) < Left(progress, retry)
    {
      hide CountReactions, NumberDuplicate, ReactionTo, WentOn, Ended, PrepareFailed, EndOf, CommittedOnce;
      hide Finished, Given, OneByOne;
      ReactionIs(failure, retry, column);
      next := progress;
      ghost var before := ends[..|ends| - 1];
      assert ends == before + [Failed(failure)];
      CountPush(before, Failed(failure), retry, column, NewNumber);
      CountPush(before, Failed(failure), retry, column, TryAgain);
      Ending(failure, retry, column);
      if ReactionTo(failure, retry, column) != GiveUp { WentOnPush(before, Failed(failure), retry, column); }
      ended := None;
      if retry.Some? && retry.value.matches(failure) {
        if progress.workRetries >= retry.value.maxRetries {
          ended := Some(Err(Exhausted(failure)));
        } else {
          next := progress.(workRetries := progress.workRetries + 1);
        }
      } else if !NumberDuplicate(failure, column) {
        ended := Some(Err(Raised(failure)));
      } else if progress.numberRetries >= NUMBER_RETRY {
        ended := Some(Err(NumberTaken));
      } else {
        ended, next := AnotherNumber(1, progress, retry, column);
      }
    }

    /** Prepares a number, after a duplicate (`retried` is 1) or because there was none. */
    method AnotherNumber(retried: nat, progress: Progress, retry: Option<WorkRetry>, column: string)
      returns (ended: Option<Result<T, WriteError>>, next: Progress)
      requires ends != [] && !ends[|ends| - 1].Answered?
      requires Going(ends[..|ends| - 1], progress, retry, column)
      requires WentOn(ends, retry, column)
      requires retried <= 1 && (retried == 0 ==> progress.prepared.None?)
      requires progress.numberRetries + retried <= NUMBER_RETRY
      requires CountReactions(ends, retry, column, NewNumber) == progress.numberRetries + retried
      requires CountReactions(ends, retry, column, TryAgain) == progress.workRetries
      requires Told(retry, column) && |issued| == made[|ends| - 1] && Wants(ends[|ends| - 1], retry, column)
      modifies this`prepares, this`issued, this`asked
      ensures committed == [] && asked <= 4 && Told(retry, column)
      ensures ended.Some? ==> Ended(ended.value, retry, column) && |issued| == made[|ends| - 1]
      ensures ended.None? ==> Ready(retry, column) && Going(ends, next, retry, column)
      ensures ended.None? ==> 0 <= Left(next, retry) < Left(progress, retry)
    {
      hide CountReactions, WentOn, ReactionTo, Given, OneByOne, EndOf;
      next := progress;
      ended := None;
      ghost var before := issued;
      var prepared := Prepare();
      if prepared.Err? {
        ended := Some(Err(Raised(prepared.error)));
      } else {
        GivenIssue(rounds, preparations, ends, made, before, prepared.value);
        next := Progress(Some(prepared.value), progress.numberRetries + retried, progress.workRetries);
      }
    }

    /** Before a transaction: `done` ended without an answer, and as often as the counters say. */
    ghost predicate Going(done: seq<End<T>>, progress: Progress, retry: Option<WorkRetry>, column: string)
      reads this
    {
      && progress.numberRetries <= NUMBER_RETRY && progress.workRetries <= MaxRetries(retry)
      && prepares == asked == |issued|
      && asked <= progress.numberRetries + (if progress.prepared.Some? then 1 else 0)
      && |done| <= progress.numberRetries + progress.workRetries + (if progress.prepared.Some? then 1 else 0)
      && progress.prepared == (if issued == [] then None else Some(issued[|issued| - 1]))
      && (progress.prepared.None? ==> progress.numberRetries == 0)
      && WentOn(done, retry, column)
      && CountReactions(done, retry, column, NewNumber) == progress.numberRetries
      && CountReactions(done, retry, column, TryAgain) == progress.workRetries
      && committed == []
    }

    ghost predicate Told(retry: Option<WorkRetry>, column: string)
      reads this
    {
      Given(rounds, preparations, ends, made, issued) && OneByOne(ends, made, retry, column)
    }

    /** The next transaction is the first one, or has one number more exactly when one was wanted. */
    ghost predicate Ready(retry: Option<WorkRetry>, column: string)
      requires |made| == |ends|
      reads this
    {
      ends != [] ==> |issued| == MadeAfter(ends[|ends| - 1], made[|ends| - 1], retry, column)
    }

    /** The course of the whole call: it begins with a number exactly when there is no record. */
    ghost predicate History(hasRecord: bool, retry: Option<WorkRetry>, column: string)
      reads this
    {
      && Told(retry, column)
      && (ends == [] ==> !hasRecord && issued == [])
      && (ends != [] ==> made[0] == (if hasRecord then 0 else 1) && |issued| == made[|ends| - 1])
    }

    /** What follows for the first transaction. */
    lemma Remembered(r: Result<T, WriteError>, hasRecord: bool, retry: Option<WorkRetry>, column: string)
      requires History(hasRecord, retry, column) && Ended(r, retry, column)
      ensures hasRecord && rounds(0).Replay? ==> r == Ok(rounds(0).body) && prepares == 0 && asked == 0 && |ends| == 1
      ensures !hasRecord && (preparations(0).plant == None || preparations(0).number.Err?) ==> ends == []
      ensures ends != [] ==> (ends[0] == NumberNeeded <==> hasRecord && rounds(0).Execute?)
    {
      hide CountReactions, ReactionTo, NumberDuplicate;
      if ends != [] {
        assert ends[0] == EndOf(rounds(0), NumberAfter(issued, made[0]));
        if ends[0].Answered? && |ends| > 1 {
          assert ends[..|ends| - 1][0] == ends[0];
        }
      }
    }

    /** What the result says about the transactions that were run. */
    ghost predicate Ended(r: Result<T, WriteError>, retry: Option<WorkRetry>, column: string)
      reads this
    {
      match r
      case Ok(body) => Finished(retry, column) && ends[|ends| - 1] == Answered(body)
      case Err(NumberTaken) =>
        && LastReaction(retry, column) == Some(NewNumber) && Finished(retry, column)
        && CountReactions(ends, retry, column, NewNumber) == 4
      case Err(Exhausted(failure)) =>
        && LastReaction(retry, column) == Some(TryAgain) && Finished(retry, column)
        && ends[|ends| - 1] == Failed(failure)
        && CountReactions(ends, retry, column, TryAgain) == MaxRetries(retry) + 1
      case Err(Raised(failure)) =>
        if prepares == |issued| then Fatal(failure, retry, column)
        else
          && prepares == |issued| + 1 && PrepareFailed(failure)
          && WentOn(ends, retry, column) && WantedLast(retry, column)
    }

    ghost predicate WantedLast(retry: Option<WorkRetry>, column: string)
      reads this
    {
      ends != [] ==> Wants(ends[|ends| - 1], retry, column)
    }

    /** Every transaction before the last one was one to go on after. */
    ghost predicate Finished(retry: Option<WorkRetry>, column: string)
      reads this
    {
      ends != [] && WentOn(ends[..|ends| - 1], retry, column) && prepares == asked == |issued|
    }

    ghost function LastReaction(retry: Option<WorkRetry>, column: string): Option<Reaction>
      reads this
    {
      if ends == [] || !ends[|ends| - 1].Failed? then None
      else Some(ReactionTo(ends[|ends| - 1].failure, retry, column))
    }

    /** The last transaction failed in a way that is never tried again. */
    ghost predicate Fatal(failure: Failure, retry: Option<WorkRetry>, column: string)
      reads this
    {
      Finished(retry, column) && ends[|ends| - 1] == Failed(failure) && LastReaction(retry, column) == Some(GiveUp)
    }

    /** The last preparation met no target, or no number. */
    ghost predicate PrepareFailed(failure: Failure)
      reads this
    {
      prepares > 0 &&
      var last := preparations(prepares - 1);
      if last.plant == None then failure == InvalidTarget else last.number == Err(failure)
    }

    /**
     * Nothing was committed unless the last transaction executed and answered; then one number was, the
     * last one issued, for the plant the target had in that transaction, and its work gave the answer.
     */
    ghost predicate CommittedOnce()
      reads this
    {
      if ends != [] && ends[|ends| - 1].Answered? && rounds(|ends| - 1).Execute? then
        var round := rounds(|ends| - 1);
        && |committed| == 1 && issued != [] && committed[0] == issued[|issued| - 1]
        && round.plant == Some(committed[0].plant)
        && round.work(committed[0].documentNo) == Ok(ends[|ends| - 1].body)
        && round.commit == None
      else committed == []
    }
  }
}
