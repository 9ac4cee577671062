/** The file store: good copies replace bad ones, in whatever order the copies arrive. */
module Archive {
  import opened Bytes

  const BAD := ".bad"

  // ----- names -----

  /** path.Ext: the suffix from the last dot of the last element. */
  function Ext(name: string): string {
    if name == "" || name[|name| - 1] == '/' then ""
    else
      var c := name[|name| - 1];
      if c == '.' then "."
      else
        var e := Ext(name[..|name| - 1]);
        if e == "" then "" else e + [c]
  }

  predicate EndsWith(name: string, suffix: string) {
    |suffix| <= |name| && name[|name| - |suffix|..] == suffix
  }

  function TrimSuffix(name: string, suffix: string): string {
    if EndsWith(name, suffix) then name[..|name| - |suffix|] else name
  }

  lemma {:induction false} ExtIsSuffix(name: string)
    ensures EndsWith(name, Ext(name))
    ensures Ext(name) != "" ==> Ext(name)[0] == '.' && '.' !in Ext(name)[1..]
  {
    if name == "" || name[|name| - 1] == '/' || name[|name| - 1] == '.' {
    } else {
      var front, c := name[..|name| - 1], name[|name| - 1];
      ExtIsSuffix(front);
      var e := Ext(front);
      if e != "" {
        assert name == front[..|front| - |e|] + (e + [c]);
        assert (e + [c])[1..] == e[1..] + [c];
      }
    }
  }

  /** A last dot that no slash follows starts the extension. */
  lemma {:induction false} ExtFromDot(name: string, tail: string)
    requires '.' !in tail && '/' !in tail
    ensures Ext(name + "." + tail) == "." + tail
  {
    var all := name + "." + tail;
    if tail == "" {
      assert all[|all| - 1] == '.';
    } else {
      var front, c := tail[..|tail| - 1], tail[|tail| - 1];
      assert all[..|all| - 1] == name + "." + front && all[|all| - 1] == c;
      assert c in tail;
      ExtFromDot(name, front);
      assert "." + tail == "." + front + [c];
    }
  }

  lemma ExtIsBad(name: string)
    ensures Ext(name) == BAD <==> EndsWith(name, BAD)
  {
    ExtIsSuffix(name);
    if EndsWith(name, BAD) {
      assert name == name[..|name| - 4] + "." + "bad";
      ExtFromDot(name[..|name| - 4], "bad");
    }
  }

  // ----- storing -----

  type Files = map<string, Data>

  /**
   * The ways a store can end. A failed write may leave part of the content, the old content,
   * or no file; the link or the metadata can fail after the file has been written.
   */
  datatype Outcome =
    | Success
    | NotAllowed
    | NoDirectory
    | EncodingFailed
    | WriteFailed(left: Option<Data>)
    | LinkFailed

  /**
   * One call of Store and what the file system does in it: whether a file that is there is seen
   * by Stat, whether a file that is there is removed by Remove, and how the call ends. Store
   * ignores errors of Remove, and takes any error of Stat as an absent file.
   */
  datatype Attempt = Attempt(name: string, content: Data, statWorks: bool, removeWorks: bool, outcome: Outcome)

  /** A bad copy whose good one is seen. */
  predicate Superseded(files: Files, rembad: bool, a: Attempt) {
    rembad && EndsWith(a.name, BAD) && a.statWorks && TrimSuffix(a.name, BAD) in files
  }

  /** Does the attempt get as far as writing the file, unless it is superseded? */
  predicate Writes(a: Attempt) {
    a.outcome.Success? || a.outcome.LinkFailed? || a.outcome.WriteFailed?
  }

  /** What the write leaves under the name. */
  function Left(a: Attempt): Option<Data> {
    if a.outcome.WriteFailed? then a.outcome.left else Some(a.content)
  }

  function Put(files: Files, name: string, content: Option<Data>): Files {
    match content
    case None => files - {name}
    case Some(c) => files[name := c]
  }

  /** The directory after an attempt. */
  function After(files: Files, rembad: bool, a: Attempt): Files {
    if !Writes(a) || Superseded(files, rembad, a) then files
    else Put(if rembad && a.removeWorks then files - {a.name + BAD} else files, a.name, Left(a))
  }

  class FileStore {
    const rembad: bool
    var files: Files

    constructor (keepBad: bool)
      ensures rembad == !keepBad && files == map[]
    {
      rembad, files := !keepBad, map[];
    }

    method Stat(name: string, works: bool) returns (found: bool)
      ensures found <==> works && name in files
    {
      found := works && name in files;
    }

    method Remove(name: string, works: bool)
      modifies this
      ensures files == if works then old(files) - {name} else old(files)
    {
      if works {
        files := files - {name};
      }
    }

    /** ok tells whether the call reports no error. */
    method Store(a: Attempt) returns (ok: bool)
      modifies this
      ensures files == After(old(files), rembad, a)
      ensures ok <==> a.outcome.Success? || a.outcome.NotAllowed?
                      || (!a.outcome.NoDirectory? && Superseded(old(files), rembad, a))
    {
      hide Ext, EndsWith, TrimSuffix;
      if a.outcome.NotAllowed? {
        return true;
      }
      if a.outcome.NoDirectory? {
        return false;
      }
      ExtIsBad(a.name);
      if rembad && Ext(a.name) == BAD {
        var found := Stat(TrimSuffix(a.name, BAD), a.statWorks);
        if found {
          return true;
        }
      }
      var badname := a.name + BAD;
      if a.outcome.EncodingFailed? {
        return false;
      }
      if rembad {
        Remove(badname, a.removeWorks);
      }
      if a.outcome.WriteFailed? {
        match a.outcome.left {
          case None => files := files - {a.name};
          case Some(part) => files := files[a.name := part];
        }
        return false;
      }
      files := files[a.name := a.content];
      ok := a.outcome.Success?;
    }
  }

  // ----- one attempt -----

  function Get(files: Files, name: string): Option<Data> {
    if name in files then Some(files[name]) else None
  }

  function OrElse<T>(a: Option<T>, b: T): T {
    match a
    case None => b
    case Some(x) => x
  }

  lemma BadNameOf(name: string)
    ensures EndsWith(name + BAD, BAD) && TrimSuffix(name + BAD, BAD) == name
    ensures name + BAD != name
  {
    assert |name + BAD| != |name|;
  }

  lemma SameBadName(x: string, y: string)
    ensures x + BAD == y + BAD <==> x == y
  {
    assert (x + BAD)[..|x|] == x && (y + BAD)[..|y|] == y;
  }

  /** What a good name and its bad name hold. */
  datatype Pair = Pair(good: Option<Data>, bad: Option<Data>) {
    predicate IsDoubled() {
      good.Some? && bad.Some?
    }
  }

  function PairOf(files: Files, x: string): Pair {
    Pair(Get(files, x), Get(files, x + BAD))
  }

  /** An attempt on the bad copy is carried out unless the good one is there and seen. */
  predicate WritesBad(a: Attempt, x: string, good: Option<Data>) {
    a.name == x + BAD && Writes(a) && !(a.statWorks && good.Some?)
  }

  predicate WritesGood(a: Attempt, x: string) {
    a.name == x && Writes(a)
  }

  /** What an attempt makes of the two copies. */
  function Step(before: Pair, a: Attempt, x: string): Pair {
    if WritesGood(a, x) then Pair(Left(a), if a.removeWorks then None else before.bad)
    else if WritesBad(a, x, before.good) then Pair(before.good, Left(a))
    else before
  }

  /** One attempt, seen from one good name and its bad name; those of all other names are not seen. */
  lemma AttemptOnPair(files: Files, a: Attempt, x: string)
    requires !EndsWith(x, BAD)
    ensures PairOf(After(files, true, a), x) == Step(PairOf(files, x), a, x)
  {
    BadNameOf(x);
    if a.name == x {
      AttemptOnGood(files, a, x);
    } else if a.name == x + BAD {
      AttemptOnBad(files, a, x);
    } else {
      AttemptOnOther(files, a, x);
    }
  }

  lemma AttemptOnGood(files: Files, a: Attempt, x: string)
    requires !EndsWith(x, BAD) && a.name == x
    ensures PairOf(After(files, true, a), x) == Step(PairOf(files, x), a, x)
  {
    BadNameOf(x);
  }

  lemma AttemptOnBad(files: Files, a: Attempt, x: string)
    requires !EndsWith(x, BAD) && a.name == x + BAD
    ensures PairOf(After(files, true, a), x) == Step(PairOf(files, x), a, x)
  {
    BadNameOf(x);
    BadNameOf(a.name);
    assert a.name + BAD != x + BAD && a.name + BAD != x;
  }

  lemma AttemptOnOther(files: Files, a: Attempt, x: string)
    requires !EndsWith(x, BAD) && a.name != x && a.name != x + BAD
    ensures PairOf(After(files, true, a), x) == Step(PairOf(files, x), a, x)
  {
    BadNameOf(a.name);
    SameBadName(a.name, x);
    assert a.name + BAD != x;
  }

  /**
   * By value: a call that fails before the write changes nothing; one that succeeds, or fails
   * only in the link or the metadata, leaves the content under the name, unless it is a bad copy
   * whose good one is seen; a failed write leaves what it leaves.
   */
  lemma AttemptByValue(files: Files, rembad: bool, a: Attempt)
    ensures a.outcome.NotAllowed? || a.outcome.NoDirectory? || a.outcome.EncodingFailed? ==>
              After(files, rembad, a) == files
    ensures (a.outcome.Success? || a.outcome.LinkFailed?) && !Superseded(files, rembad, a) ==>
              Get(After(files, rembad, a), a.name) == Some(a.content)
    ensures a.outcome.WriteFailed? && !Superseded(files, rembad, a) ==>
              Get(After(files, rembad, a), a.name) == a.outcome.left
    ensures Superseded(files, rembad, a) ==> After(files, rembad, a) == files
  {
    BadNameOf(a.name);
  }

  /**
   * Exactly when one attempt puts the two copies side by side: it leaves a file, and either it
   * is the good copy and the bad one that is there is not removed, or it is the bad copy and
   * the good one that is there is not seen.
   */
  lemma DoubledExactly(files: Files, a: Attempt, x: string)
    requires !EndsWith(x, BAD) && !PairOf(files, x).IsDoubled()
    ensures PairOf(After(files, true, a), x).IsDoubled() <==>
            && Writes(a) && Left(a).Some?
            && ((a.name == x && !a.removeWorks && x + BAD in files)
                || (a.name == x + BAD && !a.statWorks && x in files))
  {
    AttemptOnPair(files, a, x);
    BadNameOf(x);
  }

  /**
   * A copy that was on disk is lost in one attempt exactly when a write leaves no file, and it
   * is that of the good copy after the bad one was removed or was not there, or that of the bad
   * copy in the absence of the good one.
   */
  lemma LostExactly(files: Files, a: Attempt, x: string)
    requires !EndsWith(x, BAD) && (x in files || x + BAD in files)
    ensures PairOf(After(files, true, a), x) == Pair(None, None) <==>
            && a.outcome == WriteFailed(None)
            && ((a.name == x && (a.removeWorks || x + BAD !in files)) || (a.name == x + BAD && x !in files))
  {
    AttemptOnPair(files, a, x);
    BadNameOf(x);
  }

  // ----- runs -----

  function AfterAll(files: Files, rembad: bool, attempts: seq<Attempt>): Files {
    if attempts == [] then files
    else After(AfterAll(files, rembad, attempts[..|attempts| - 1]), rembad, attempts[|attempts| - 1])
  }

  /** What the last attempt that writes a name leaves there, if one does. */
  function LastLeft(attempts: seq<Attempt>, name: string): Option<Option<Data>> {
    if attempts == [] then None
    else
      var a := attempts[|attempts| - 1];
      if a.name == name && Writes(a) then Some(Left(a)) else LastLeft(attempts[..|attempts| - 1], name)
  }

  /** What a good name holds after the attempts, when it held `before` at first. */
  function GoodAfter(before: Option<Data>, attempts: seq<Attempt>, x: string): Option<Data> {
    OrElse(LastLeft(attempts, x), before)
  }

  /**
   * What the last attempt that touched the bad copy left of it: nothing, if that was a write of
   * the good copy that removed it, or what was written, if that was a bad copy that came while
   * no good one was there to be seen.
   */
  function LastBad(good: Option<Data>, attempts: seq<Attempt>, x: string): Option<Option<Data>> {
    if attempts == [] then None
    else
      var front, a := attempts[..|attempts| - 1], attempts[|attempts| - 1];
      if WritesGood(a, x) && a.removeWorks then Some(None)
      else if WritesBad(a, x, GoodAfter(good, front, x)) then Some(Left(a))
      else LastBad(good, front, x)
  }

  function PairAfter(before: Pair, attempts: seq<Attempt>, x: string): Pair {
    Pair(GoodAfter(before.good, attempts, x), OrElse(LastBad(before.good, attempts, x), before.bad))
  }

  lemma PairAfterMore(before: Pair, front: seq<Attempt>, a: Attempt, x: string)
    ensures PairAfter(before, front + [a], x) == Step(PairAfter(before, front, x), a, x)
  {
    assert (front + [a])[..|front|] == front;
    BadNameOf(x);
  }

  /**
   * With removal of bad copies, after any run of attempts on any names, whatever fails in them:
   * a good name holds what the last write of the good copy left there, and its bad name what
   * the last attempt that touched it left.
   */
  lemma {:induction false} PairAfterRun(files: Files, attempts: seq<Attempt>, x: string)
    requires !EndsWith(x, BAD)
    ensures PairOf(AfterAll(files, true, attempts), x) == PairAfter(PairOf(files, x), attempts, x)
  {
    hide After, Step;
    if attempts == [] {
    } else {
      var front, a := attempts[..|attempts| - 1], attempts[|attempts| - 1];
      assert attempts == front + [a];
      PairAfterRun(files, front, x);
      AttemptOnPair(AfterAll(files, true, front), a, x);
      PairAfterMore(PairOf(files, x), front, a, x);
    }
  }

  /** The attempt puts the copies side by side: it leaves a file beside one that a failure kept there. */
  predicate Doubles(before: Pair, a: Attempt, x: string) {
    && Writes(a) && Left(a).Some?
    && ((a.name == x && !a.removeWorks && before.bad.Some?) || (a.name == x + BAD && !a.statWorks && before.good.Some?))
  }

  /** The attempt takes one of two copies away: it removes the bad one, or its write leaves no file. */
  predicate Separates(a: Attempt, x: string) {
    && Writes(a)
    && ((a.name == x && (a.removeWorks || Left(a).None?)) || (a.name == x + BAD && !a.statWorks && Left(a).None?))
  }

  lemma StepDoubles(before: Pair, a: Attempt, x: string)
    ensures Step(before, a, x).IsDoubled() <==> (before.IsDoubled() && !Separates(a, x)) || Doubles(before, a, x)
  {
    BadNameOf(x);
  }

  /** The attempt at k put the copies side by side, and no later one took one away. */
  predicate IsCause(before: Pair, attempts: seq<Attempt>, x: string, k: int) {
    && 0 <= k < |attempts|
    && Doubles(PairAfter(before, attempts[..k], x), attempts[k], x)
    && forall j :: k < j < |attempts| ==> !Separates(attempts[j], x)
  }

  lemma CauseOfMore(before: Pair, front: seq<Attempt>, a: Attempt, x: string)
    ensures (exists k :: IsCause(before, front + [a], x, k)) <==>
            ((exists k :: IsCause(before, front, x, k)) && !Separates(a, x))
            || Doubles(PairAfter(before, front, x), a, x)
  {
    hide Doubles, PairAfter, Separates;
    var all := front + [a];
    assert all[..|front|] == front;
    forall k | 0 <= k < |front|
      ensures IsCause(before, all, x, k) <==> IsCause(before, front, x, k) && !Separates(a, x)
    {
      assert all[..k] == front[..k];
      assert all[|front|] == a;
      assert forall j :: k < j < |front| ==> all[j] == front[j];
    }
    assert IsCause(before, all, x, |front|) <==> Doubles(PairAfter(before, front, x), a, x);
  }

  lemma {:induction false} DoubledHasCause(before: Pair, attempts: seq<Attempt>, x: string)
    requires !before.IsDoubled()
    ensures PairAfter(before, attempts, x).IsDoubled() <==> exists k :: IsCause(before, attempts, x, k)
  {
    if attempts == [] {
    } else {
      var front, a := attempts[..|attempts| - 1], attempts[|attempts| - 1];
      assert attempts == front + [a];
      DoubledHasCause(before, front, x);
      hide Step, Doubles, PairAfter, Separates, IsCause;
      PairAfterMore(before, front, a, x);
      StepDoubles(PairAfter(before, front, x), a, x);
      CauseOfMore(before, front, a, x);
    }
  }

  /**
   * Exactly when the two copies are side by side after a run that did not start so: some
   * attempt put them there, by a Remove or a Stat that failed, and no later one took one away.
   */
  lemma DoubledAfterRunExactly(files: Files, attempts: seq<Attempt>, x: string)
    requires !EndsWith(x, BAD) && !(x in files && x + BAD in files)
    ensures var after := AfterAll(files, true, attempts);
            x in after && x + BAD in after <==> exists k :: IsCause(PairOf(files, x), attempts, x, k)
  {
    hide IsCause, PairAfter, AfterAll;
    PairAfterRun(files, attempts, x);
    DoubledHasCause(PairOf(files, x), attempts, x);
  }

  /** Remove does its work for the good copy, and Stat for the bad one. */
  predicate IsObeyed(a: Attempt, x: string) {
    (a.name == x ==> a.removeWorks) && (a.name == x + BAD ==> a.statWorks)
  }

  /** As long as Stat and Remove work, there are never two copies, not even after failed writes. */
  lemma NeverBoth(files: Files, attempts: seq<Attempt>, x: string)
    requires !EndsWith(x, BAD) && !(x in files && x + BAD in files)
    requires forall i :: 0 <= i < |attempts| ==> IsObeyed(attempts[i], x)
    ensures var after := AfterAll(files, true, attempts); !(x in after && x + BAD in after)
  {
    DoubledAfterRunExactly(files, attempts, x);
  }

  lemma TwoAttempts(a: Attempt, b: Attempt, x: string)
    requires !EndsWith(x, BAD)
    ensures PairOf(AfterAll(map[], true, [a, b]), x) == Step(Step(Pair(None, None), a, x), b, x)
  {
    hide Step;
    PairAfterRun(map[], [a, b], x);
    PairAfterMore(Pair(None, None), [], a, x);
    PairAfterMore(Pair(None, None), [a], b, x);
    assert [] + [a] == [a] && [a] + [b] == [a, b];
  }

  /** A removal that fails goes unnoticed: both calls report success, and both copies stay. */
  lemma FailedRemoveDoubles(x: string, bad: Attempt, good: Attempt)
    requires !EndsWith(x, BAD)
    requires bad.name == x + BAD && bad.outcome.Success?
    requires good.name == x && good.outcome.Success? && !good.removeWorks
    ensures PairOf(AfterAll(map[], true, [bad, good]), x) == Pair(Some(good.content), Some(bad.content))
  {
    BadNameOf(x);
    TwoAttempts(bad, good, x);
  }

  /** So does a Stat that fails, when the bad copy comes second. */
  lemma FailedStatDoubles(x: string, good: Attempt, bad: Attempt)
    requires !EndsWith(x, BAD)
    requires good.name == x && good.outcome.Success?
    requires bad.name == x + BAD && bad.outcome.Success? && !bad.statWorks
    ensures PairOf(AfterAll(map[], true, [good, bad]), x) == Pair(Some(good.content), Some(bad.content))
  {
    BadNameOf(x);
    TwoAttempts(good, bad, x);
  }

  predicate NoWriteFails(attempts: seq<Attempt>) {
    forall i :: 0 <= i < |attempts| ==> !attempts[i].outcome.WriteFailed?
  }

  lemma {:induction false} NothingIsLost(attempts: seq<Attempt>, name: string)
    requires NoWriteFails(attempts)
    ensures LastLeft(attempts, name).Some? ==> LastLeft(attempts, name).value.Some?
  {
    if attempts == [] {
    } else {
      NothingIsLost(attempts[..|attempts| - 1], name);
    }
  }

  /** The bad copy after a run in which Stat and Remove work and no write fails. */
  lemma {:induction false} BadWithoutFailures(good: Option<Data>, attempts: seq<Attempt>, x: string)
    requires !EndsWith(x, BAD) && NoWriteFails(attempts)
    requires forall i :: 0 <= i < |attempts| ==> IsObeyed(attempts[i], x)
    ensures LastBad(good, attempts, x) == if LastLeft(attempts, x).Some? then Some(None)
                                          else if good.Some? then None
                                          else LastLeft(attempts, x + BAD)
  {
    BadNameOf(x);
    if attempts == [] {
    } else {
      var front := attempts[..|attempts| - 1];
      BadWithoutFailures(good, front, x);
      NothingIsLost(front, x);
    }
  }

  /**
   * When no write fails, in whatever order the copies arrive: a good name holds its latest good
   * copy. If Stat and Remove work as well, its bad name holds nothing once a good copy has been
   * written, and otherwise the latest bad copy.
   */
  lemma GoodCopyWins(files: Files, attempts: seq<Attempt>, x: string)
    requires !EndsWith(x, BAD) && NoWriteFails(attempts)
    ensures var good, bad := LastLeft(attempts, x), LastLeft(attempts, x + BAD);
            var pair := PairOf(AfterAll(files, true, attempts), x);
            && pair.good == OrElse(good, Get(files, x))
            && (good.Some? ==> pair.good.Some?)
            && ((forall i :: 0 <= i < |attempts| ==> IsObeyed(attempts[i], x)) ==>
                 pair.bad == if good.Some? then None
                             else if x in files then Get(files, x + BAD)
                             else OrElse(bad, Get(files, x + BAD)))
  {
    PairAfterRun(files, attempts, x);
    NothingIsLost(attempts, x);
    if forall i :: 0 <= i < |attempts| ==> IsObeyed(attempts[i], x) {
      BadWithoutFailures(Get(files, x), attempts, x);
    }
  }

  predicate LeavesNothing(left: Option<Option<Data>>) {
    match left
    case None => true
    case Some(content) => content.None?
  }

  /**
   * What failures can cost, exactly: in a directory that starts without either copy, neither is
   * there after a run if and only if the good copy was never written or its last write left no
   * file, and the bad copy was never touched or the last attempt that did left nothing of it.
   */
  lemma NeitherExactly(files: Files, attempts: seq<Attempt>, x: string)
    requires !EndsWith(x, BAD) && x !in files && x + BAD !in files
    ensures var after := AfterAll(files, true, attempts);
            x !in after && x + BAD !in after
            <==> LeavesNothing(LastLeft(attempts, x)) && LeavesNothing(LastBad(None, attempts, x))
  {
    PairAfterRun(files, attempts, x);
    var after := AfterAll(files, true, attempts);
    assert PairOf(after, x) == Pair(None, None) <==> x !in after && x + BAD !in after;
  }

  predicate IsWritten(attempts: seq<Attempt>, name: string) {
    exists i :: 0 <= i < |attempts| && attempts[i].name == name && Writes(attempts[i])
  }

  lemma {:induction false} WrittenIsLeft(attempts: seq<Attempt>, name: string)
    ensures IsWritten(attempts, name) <==> LastLeft(attempts, name).Some?
    ensures LastLeft(attempts, name) == Some(None) ==>
              exists i :: 0 <= i < |attempts| && attempts[i].name == name && attempts[i].outcome == WriteFailed(None)
  {
    if attempts == [] {
    } else {
      var front, a := attempts[..|attempts| - 1], attempts[|attempts| - 1];
      WrittenIsLeft(front, name);
      if a.name == name && Writes(a) {
        assert attempts[|front|] == a;
      } else if IsWritten(front, name) {
        var i :| 0 <= i < |front| && front[i].name == name && Writes(front[i]);
        assert attempts[i] == front[i];
      }
    }
  }

  /** Where no good copy was or is written, every bad one is. */
  lemma {:induction false} BadAlone(attempts: seq<Attempt>, x: string)
    requires !EndsWith(x, BAD) && LastLeft(attempts, x).None?
    ensures LastBad(None, attempts, x) == LastLeft(attempts, x + BAD)
  {
    if attempts == [] {
    } else {
      BadAlone(attempts[..|attempts| - 1], x);
    }
  }

  /** As long as every write leaves a file, at least one of the two copies is there exactly if one was written. */
  lemma OneCopyRemains(files: Files, attempts: seq<Attempt>, x: string)
    requires !EndsWith(x, BAD) && x !in files && x + BAD !in files
    requires forall i :: 0 <= i < |attempts| ==> attempts[i].outcome != WriteFailed(None)
    ensures var after := AfterAll(files, true, attempts);
            x in after || x + BAD in after <==> IsWritten(attempts, x) || IsWritten(attempts, x + BAD)
  {
    NeitherExactly(files, attempts, x);
    WrittenIsLeft(attempts, x);
    WrittenIsLeft(attempts, x + BAD);
    if LastLeft(attempts, x).None? {
      BadAlone(attempts, x);
    }
  }

  /** When bad copies are kept, every name simply holds what its last write left. */
  lemma {:induction false} KeptCopies(files: Files, attempts: seq<Attempt>, name: string)
    ensures Get(AfterAll(files, false, attempts), name) == OrElse(LastLeft(attempts, name), Get(files, name))
  {
    if attempts == [] {
    } else {
      KeptCopies(files, attempts[..|attempts| - 1], name);
    }
  }
}
