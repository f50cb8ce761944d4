/** The channel registry and the game-facing branches of the `solitaire` command's action
    handler in src/index.ts: the daily usage quotas, starting, stopping and hinting at a
    game, submitting an answer, the timeout verdict, and the `-S`/`-E` tone lookups. */
module Game {
  import opened Text
  import opened Dict
  import opened Chain
  import opened Engine

  // ---------------------------------------------------------------------------
  // Daily usage quotas (src/index.ts:64-83)

  /** `MAX_USAGE`, `PK_MAX_USAGE` and `HINT_MAX_USAGE`. */
  const MaxUsage: int := 300
  const PkMaxUsage: int := 500
  const HintMaxUsage: int := 10

  /** `user.usage`: the day number it counts for and a count per command name. */
  datatype Usage = Usage(date: int, counts: map<string, int>)

  /** The usage as `getUsage` leaves it: emptied when it counts for another day. */
  function Today(u: Usage, today: int): Usage
  {
    if u.date != today then Usage(today, map[]) else u
  }

  /** `user.usage[name] || 0` */
  function Count(u: Usage, name: string): int
  {
    if name in u.counts then u.counts[name] else 0
  }

  /** How often `name` was used on `today`, whatever day the record was last reset on. */
  function UsedOn(u: Usage, today: int, name: string): int
  {
    if u.date == today then Count(u, name) else 0
  }

  /** `checkUsage(name, user, maxUsage)`: the new usage record and whether the quota was
      already reached. A user without a usage record is never limited; a zero quota is
      never counted against. */
  function Checked(usage: Option<Usage>, name: string, maxUsage: int, today: int): (Option<Usage>, bool)
  {
    if usage.None? then (usage, false)
    else
      var u := Today(usage.value, today);
      var count := Count(u, name);
      if count >= maxUsage then (Some(u), true)
      else if maxUsage != 0 then (Some(u.(counts := u.counts[name := count + 1])), false)
      else (Some(u), false)
  }

  /** A check resets a record of another day, refuses exactly when today's count has
      reached the quota, and otherwise counts one more use of `name` and of nothing else. */
  lemma CheckedMeaning(usage: Option<Usage>, name: string, maxUsage: int, today: int)
    ensures var (r, over) := Checked(usage, name, maxUsage, today);
      (usage.None? ==> r == usage && !over) &&
      (usage.Some? ==>
        r.Some? && r.value.date == today &&
        (over <==> UsedOn(usage.value, today, name) >= maxUsage) &&
        UsedOn(r.value, today, name) ==
          (if !over && maxUsage != 0 then UsedOn(usage.value, today, name) + 1 else UsedOn(usage.value, today, name)) &&
        forall n :: n != name ==> UsedOn(r.value, today, n) == UsedOn(usage.value, today, n))
  {
  }

  /** `k` checks of `name` in a row on the same day: the record left and how many passed. */
  function CheckedTimes(usage: Option<Usage>, name: string, maxUsage: int, today: int, k: nat): (Option<Usage>, nat)
    decreases k
  {
    if k == 0 then (usage, 0)
    else
      var (u, over) := Checked(usage, name, maxUsage, today);
      var (r, passed) := CheckedTimes(u, name, maxUsage, today, k - 1);
      (r, if over then passed else passed + 1)
  }

  /** The daily quota holds: every check that passes counts one use, and once any has
      passed the day's count is within the quota, so no more than `maxUsage` checks pass
      on one day. */
  lemma {:induction false} DailyQuota(u: Usage, name: string, maxUsage: int, today: int, k: nat)
    requires maxUsage > 0
    ensures var (r, passed) := CheckedTimes(Some(u), name, maxUsage, today, k);
      r.Some? && UsedOn(r.value, today, name) == UsedOn(u, today, name) + passed &&
      (passed > 0 ==> UsedOn(r.value, today, name) <= maxUsage)
    decreases k
  {
    if k > 0 {
      CheckedMeaning(Some(u), name, maxUsage, today);
      var (v, over) := Checked(Some(u), name, maxUsage, today);
      DailyQuota(v.value, name, maxUsage, today, k - 1);
    }
  }

  /** A user's usage record (`user.usage`). */
  class User {
    var usage: Option<Usage>

    constructor (usage: Option<Usage>)
      ensures this.usage == usage
    {
      this.usage := usage;
    }

    /** `getUsage(name, user)`: resets the record on a new day, then reads the count. */
    method GetUsage(name: string, today: int) returns (count: int)
      requires usage.Some?
      modifies this
      ensures usage == Some(Today(old(usage).value, today))
      ensures count == UsedOn(old(usage).value, today, name)
    {
      if usage.value.date != today {
        usage := Some(Usage(today, map[]));
      }
      count := Count(usage.value, name);
    }

    /** `checkUsage(name, user, maxUsage)` */
    method CheckUsage(name: string, maxUsage: int, today: int) returns (over: bool)
      modifies this
      ensures (usage, over) == Checked(old(usage), name, maxUsage, today)
    {
      if usage.None? {
        return false;
      }
      var count := GetUsage(name, today);
      if count >= maxUsage {
        return true;
      }
      if maxUsage != 0 {
        usage := Some(usage.value.(counts := usage.value.counts[name := count + 1]));
      }
      over := false;
    }
  }

  /** The game under way in `channel`, if any. */
  function Current(states: map<string, State>, channel: string): (g: Option<State>)
    ensures g.Some? <==> channel in states
    ensures g.Some? ==> g.value == states[channel]
  {
    if channel in states then Some(states[channel]) else None
  }

  /** The quota the handler checks, as written (src/index.ts:145):
      `pkRounds[userId] || arcade ? PK_MAX_USAGE : MAX_USAGE`. A counter of 0 is falsy. */
  function UsageLimitAsWritten(game: Option<State>, user: string): int
  {
    if game.Some? && ((Counter(game.value.pkRounds, user).Some? && Counter(game.value.pkRounds, user).value != 0)
                      || game.value.arcade)
    then PkMaxUsage else MaxUsage
  }

  /** The quota as evidently intended: the PK quota for every player of a PK game and in
      arcade play. */
  function UsageLimit(game: Option<State>, user: string): int
  {
    if game.Some? && (user in Ids(game.value.pkRounds) || game.value.arcade) then PkMaxUsage else MaxUsage
  }

  /** The player who answered last in PK play holds a counter of 0 and is given the
      ordinary quota by the handler as written, though a player of the game. */
  lemma UsageLimitAsWrittenMissesLastAnswer()
    ensures var st := NewState("c", "a", false, false, false, false).(pk := true, pkRounds := [("a", 0)]);
      "a" in Ids(st.pkRounds) && UsageLimitAsWritten(Some(st), "a") == MaxUsage && UsageLimit(Some(st), "a") == PkMaxUsage
  {
    var st := NewState("c", "a", false, false, false, false).(pk := true, pkRounds := [("a", 0)]);
    assert Ids(st.pkRounds) == ["a"];
    assert IndexOf(Ids(st.pkRounds), "a") == 0;
  }

  /** The two quotas differ only for a player whose counter is exactly 0; and every player
      of a PK game, and everybody in arcade play, gets the PK quota. */
  lemma UsageLimitAgrees(game: Option<State>, user: string)
    ensures game.Some? && Counter(game.value.pkRounds, user) != Some(0) ==>
      UsageLimitAsWritten(game, user) == UsageLimit(game, user)
    ensures game.None? ==> UsageLimit(game, user) == MaxUsage
    ensures game.Some? && (user in Ids(game.value.pkRounds) || game.value.arcade) ==> UsageLimit(game, user) == PkMaxUsage
  {
  }

  // ---------------------------------------------------------------------------
  // The timeout verdict (src/index.ts:522-546)

  datatype Verdict =
    | PkWon(winner: string)   // PK: the last to answer wins
    | PkNoWinner              // PK: nobody wins
    | ArcadeFailed            // arcade play ran out of time
    | TimedOut                // ordinary play stopped after 30 minutes

  /** What the timer of `setTask` announces when it fires; the game is then dropped. In
      PK play the last to answer wins when somebody did (a non-empty id) and more than one
      player holds a counter. */
  function TimeoutVerdict(st: State): Verdict
  {
    if st.pk then
      if st.lastUser.Some? && st.lastUser.value != "" && |st.pkRounds| > 1 then PkWon(st.lastUser.value)
      else PkNoWinner
    else if st.arcade then ArcadeFailed
    else TimedOut
  }

  // ---------------------------------------------------------------------------
  // The registry of games (src/index.ts:62, 218-373)

  /** Who answered last, if anybody, is a player still in the game. */
  ghost predicate LastIsPlayer(st: State)
  {
    st.lastUser.Some? ==> st.lastUser.value in Ids(st.pkRounds) && st.lastUser.value !in st.outUsers
  }

  /** What the registry keeps of every game: it is under way, something can be answered,
      it is filed under its own channel, and who answered last is still playing. */
  ghost predicate Live(lex: Lexicon, channel: string, st: State)
  {
    Valid(lex, st) && st.nextWords != {} && st.channelId == channel && LastIsPlayer(st)
  }

  ghost predicate AllLive(lex: Lexicon, states: map<string, State>)
  {
    forall c :: c in states ==> Live(lex, c, states[c])
  }

  /** A timeout in PK play is won only by the player who answered last, who is still in
      the game and had at least one opponent; outside PK play nobody wins. */
  lemma TimeoutWinnerPlays(lex: Lexicon, channel: string, st: State)
    requires Live(lex, channel, st)
    ensures var v := TimeoutVerdict(st);
      (v.PkWon? <==> st.pk && st.lastUser.Some? && st.lastUser.value != "" && |Ids(st.pkRounds)| > 1) &&
      (v.PkWon? ==> (Some(v.winner) == st.lastUser && v.winner in Ids(st.pkRounds) && v.winner !in st.outUsers &&
        exists x :: x in Ids(st.pkRounds) && x != v.winner))
  {
    var v := TimeoutVerdict(st);
    if v.PkWon? {
      var ids := Ids(st.pkRounds);
      assert ids[0] != ids[1];
      if ids[0] == v.winner {
        assert ids[1] in ids;
      } else {
        assert ids[0] in ids;
      }
    }
  }

  /** Flags given when a game is started. */
  datatype Mode = Mode(reverse: bool, strict: bool, arcade: bool, pk: bool, warning: bool)

  /** The game a start creates in `channel` for `initiator` (src/index.ts:221-246): a
      fresh state, a first word from `createWord`, then the PK record (after the first
      word, so the first deadline is an ordinary one) and the armed timer. The first word
      is `None` when none was found. */
  ghost function Opened(lex: Lexicon, keys: seq<string>, channel: string, initiator: string, m: Mode, now: int,
                        draws: seq<nat>): (State, Option<string>, seq<nat>)
    requires Drawable(keys)
  {
    var t := Created(lex, keys, NewState(channel, initiator, m.reverse, m.strict, m.arcade, m.warning), now, draws);
    var s := if m.pk then t.0.(pk := true, pkRounds := [], outUsers := {}) else t.0;
    (s.(alarm := s.timeout), t.1, t.2)
  }

  /** A started game is at turn 0 in its own channel, with its first word as the only
      played word and nobody in, out or having answered yet. */
  lemma OpenedShape(lex: Lexicon, keys: seq<string>, channel: string, initiator: string, m: Mode, now: int,
                    draws: seq<nat>)
    requires Drawable(keys)
    ensures var t := Opened(lex, keys, channel, initiator, m, now, draws);
      t.1.Some? ==>
        t.0.index == 0 && t.0.words == {t.1.value} && t.0.channelId == channel && t.0.initiator == initiator &&
        t.0.pk == m.pk && t.0.pkRounds == [] && t.0.outUsers == {} && t.0.lastUser.None?
  {
    CreatedShape(lex, keys, NewState(channel, initiator, m.reverse, m.strict, m.arcade, m.warning), now, draws);
  }

  /** A started game is live, from a first word other than the banned one whose tones are
      required next. */
  lemma OpenedLive(lex: Lexicon, keys: seq<string>, channel: string, initiator: string, m: Mode, now: int,
                   draws: seq<nat>)
    requires lex.Valid() && Vocabulary(lex, keys)
    ensures Drawable(keys)
    ensures var t := Opened(lex, keys, channel, initiator, m, now, draws);
      t.1.Some? ==>
        Live(lex, channel, t.0) && t.1.value != Banned && t.0.tones == NextTones(lex.res, t.1.value, m.reverse, m.strict)
  {
    VocabularyDrawable(lex, keys);
    OpenedShape(lex, keys, channel, initiator, m, now, draws);
    var st := NewState(channel, initiator, m.reverse, m.strict, m.arcade, m.warning);
    CreatedStarts(lex, keys, st, now, draws);
    var t := Created(lex, keys, st, now, draws);
    if t.1.Some? {
      var s := if m.pk then t.0.(pk := true, pkRounds := [], outUsers := {}) else t.0;
      if m.pk {
        VersusKeepsValid(lex, t.0);
      }
      ArmKeepsValid(lex, s, s.timeout);
      assert Opened(lex, keys, channel, initiator, m, now, draws) == (s.(alarm := s.timeout), t.1, t.2);
    }
  }

  /** Turning a game into PK play with no players yet keeps it under way. */
  lemma VersusKeepsValid(lex: Lexicon, st: State)
    requires Valid(lex, st)
    ensures Valid(lex, st.(pk := true, pkRounds := [], outUsers := {}))
  {
    var r := st.(pk := true, pkRounds := [], outUsers := {});
    assert Ids(r.pkRounds) == [];
    assert r.nextWords == st.nextWords && r.tones == st.tones && r.reverse == st.reverse && r.strict == st.strict;
  }

  lemma VocabularyDrawable(lex: Lexicon, keys: seq<string>)
    requires lex.Valid() && Vocabulary(lex, keys)
    ensures Drawable(keys) && Spelled(lex)
  {
  }

  /** Outcomes after which the handler drops the game. */
  predicate Terminal(o: Outcome)
  {
    o.Finished? || o.Draw? || o.Won? || o.Broken?
  }

  /** The registry after a submission to `channel` led to `st` and `o`. */
  function Stored(states: map<string, State>, channel: string, st: State, o: Outcome): map<string, State>
  {
    if Terminal(o) then states - {channel} else states[channel := st]
  }

  /** A game that goes on after a submission is still live: the chain continues with an
      answer by a player who is not out, or restarts with nobody having answered. */
  lemma SubmitStaysLive(lex: Lexicon, keys: seq<string>, channel: string, st: State, user: string, word: string,
                        now: int, draws: seq<nat>)
    requires lex.Valid() && Vocabulary(lex, keys) && Live(lex, channel, st)
    ensures Drawable(keys) && Spelled(lex)
    ensures var t := Submitted(lex, keys, st, user, word, now, draws);
      !Terminal(t.1) ==> Live(lex, channel, t.0)
  {
    VocabularyDrawable(lex, keys);
    var t := Submitted(lex, keys, st, user, word, now, draws);
    SubmitRefuses(lex, keys, st, user, word, now, draws);
    SubmitKeeps(lex, keys, st, user, word, now, draws);
    if t.1 == Continued {
      SubmitAdmits(lex, keys, st, user, word, now, draws);
      SubmitContinues(lex, keys, st, user, word, now, draws);
      SubmitContinuesValid(lex, keys, st, user, word, now, draws);
      SubmitCounts(lex, keys, st, user, word, now, draws);
    } else if t.1.Restarted? {
      SubmitRestarts(lex, keys, st, user, word, now, draws);
      SubmitRestartsValid(lex, keys, st, user, word, now, draws);
    }
  }

  /** A submission keeps every game of the registry live, and a refused one leaves the
      registry as it was. */
  lemma AnswerKeepsLive(lex: Lexicon, keys: seq<string>, states: map<string, State>, channel: string, user: string,
                        word: string, now: int, draws: seq<nat>)
    requires lex.Valid() && Vocabulary(lex, keys) && AllLive(lex, states) && channel in states
    ensures Drawable(keys) && Spelled(lex)
    ensures var t := Submitted(lex, keys, states[channel], user, word, now, draws);
      AllLive(lex, Stored(states, channel, t.0, t.1)) &&
      (t.1.Rejected? ==> Stored(states, channel, t.0, t.1) == states)
  {
    var st := states[channel];
    SubmitStaysLive(lex, keys, channel, st, user, word, now, draws);
    RefusedKeeps(lex, keys, st, user, word, now, draws);
    var t := Submitted(lex, keys, st, user, word, now, draws);
    StoredLive(lex, states, channel, t.0, t.1);
  }

  /** Filing the game of a channel again, live or as it was, or dropping it, keeps the
      registry live. */
  lemma StoredLive(lex: Lexicon, states: map<string, State>, channel: string, st: State, o: Outcome)
    requires AllLive(lex, states) && channel in states
    requires !Terminal(o) ==> Live(lex, channel, st)
    requires o.Rejected? ==> st == states[channel]
    ensures AllLive(lex, Stored(states, channel, st, o))
    ensures o.Rejected? ==> Stored(states, channel, st, o) == states
  {
    if o.Rejected? {
      assert states[channel := st] == states;
    }
  }

  lemma RefusedKeeps(lex: Lexicon, keys: seq<string>, st: State, user: string, word: string, now: int, draws: seq<nat>)
    requires Spelled(lex) && Drawable(keys)
    ensures Submitted(lex, keys, st, user, word, now, draws).1.Rejected? ==>
      Submitted(lex, keys, st, user, word, now, draws).0 == st
  {
    if Check(st.outUsers, st.lastUser, st.words, lex.wordMap, st.nextWords, user, word).None? {
      SubmittedSteps(lex, keys, st, user, word, now, draws);
    }
  }

  /** `-S`/`-E` (src/index.ts:183-216): the words whose leading boundary reads as one of
      the comma-separated tones of `startsWith`, those whose trailing boundary reads as one
      of `endsWith`, or the words that satisfy both when both are given. */
  function Searched(lex: Lexicon, startsWith: string, endsWith: string, strict: bool): set<string>
  {
    var s := if startsWith != "" then Gather(lex.ToneDict(false, strict), Split(startsWith), {}) else {};
    var e := if endsWith != "" then Gather(lex.ToneDict(true, strict), Split(endsWith), {}) else {};
    if startsWith != "" then (if endsWith != "" then s * e else s) else e
  }

  /** The lookup finds exactly the vocabulary words registered, at each boundary asked
      about, under one of the tones asked for. */
  lemma SearchFinds(lex: Lexicon, startsWith: string, endsWith: string, strict: bool, w: string)
    requires lex.Valid() && (startsWith != "" || endsWith != "")
    ensures w in Searched(lex, startsWith, endsWith, strict) <==>
      w in lex.wordMap && |w| >= 1 &&
      (startsWith != "" ==> exists t :: t in Split(startsWith) && lex.res.Registered(w, t, false, strict)) &&
      (endsWith != "" ==> exists t :: t in Split(endsWith) && lex.res.Registered(w, t, true, strict))
  {
    ToneDictIndexes(lex, false, strict);
    ToneDictIndexes(lex, true, strict);
    GatherIndexed(lex.res, lex.wordMap, lex.ToneDict(false, strict), false, strict, Split(startsWith), {}, w);
    GatherIndexed(lex.res, lex.wordMap, lex.ToneDict(true, strict), true, strict, Split(endsWith), {}, w);
  }

  /** The lookup as the handler runs it, filling the two word sets tone by tone. */
  method Search(lex: Lexicon, startsWith: string, endsWith: string, strict: bool) returns (words: set<string>)
    requires startsWith != "" || endsWith != ""
    ensures words == Searched(lex, startsWith, endsWith, strict)
  {
    var startWords: set<string> := {};
    var endWords: set<string> := {};
    if startsWith != "" {
      startWords := CollectWords(lex.ToneDict(false, strict), Split(startsWith), {});
    }
    if endsWith != "" {
      endWords := CollectWords(lex.ToneDict(true, strict), Split(endsWith), {});
    }
    words := if startsWith != "" then (if endsWith != "" then startWords * endWords else startWords) else endWords;
  }

  /** What the handler answers. */
  datatype Reply =
    | QuotaReached                 // the daily quota of the command is used up
    | NoGame                       // a word, a hint or a stop with no game under way
    | Started(first: string)
    | StartFailed                  // `createWord` found no first word
    | StopRefused                  // neither the initiator nor authority 2 or more
    | Stopped
    | HintRefusedPk
    | HintRefusedArcade
    | HintQuota                    // the daily hint quota is used up
    | HintGiven(word: string)
    | WarningSet(on: bool)         // `-w`/`-W` without a word
    | Status                       // no word: the current requirement is shown
    | Judged(outcome: Outcome)     // a submitted word

  /** The games under way, by channel (`states`). */
  class Registry {
    var states: map<string, State>

    constructor ()
      ensures states == map[]
    {
      states := map[];
    }

    ghost predicate Valid(lex: Lexicon)
      reads this
    {
      AllLive(lex, states)
    }

    /** A start in a channel without a game: the game is filed when a first word is
        found; otherwise the channel stays free. */
    method Start(lex: Lexicon, keys: seq<string>, channel: string, initiator: string, m: Mode, now: int, rng: Random)
      returns (first: Option<string>)
      requires channel !in states && Drawable(keys)
      modifies this, rng
      ensures var t := Opened(lex, keys, channel, initiator, m, now, old(rng.draws));
        first == t.1 && rng.draws == t.2 &&
        states == if first.Some? then old(states)[channel := t.0] else old(states)
    {
      var st := NewState(channel, initiator, m.reverse, m.strict, m.arcade, m.warning);
      st, first := CreateWord(lex, keys, st, now, rng);
      if first.Some? {
        if m.pk {
          st := st.(pk := true, pkRounds := [], outUsers := {});
        }
        states := states[channel := st.(alarm := st.timeout)];
      }
    }

    /** `--end`: only the initiator, or a user of authority 2 or more, stops the game. */
    method Stop(channel: string, user: string, authority: int) returns (stopped: bool)
      requires channel in states
      modifies this
      ensures stopped <==> user == old(states)[channel].initiator || authority >= 2
      ensures states == if stopped then old(states) - {channel} else old(states)
    {
      stopped := !(user != states[channel].initiator && authority < 2);
      if stopped {
        states := states - {channel};
      }
    }

    /** `--hint`: refused in PK play, then in arcade play, then when the daily hint quota
        is used up; otherwise one of the next words, drawn at random. */
    method Hint(lex: Lexicon, channel: string, user: User, today: int, rng: Random) returns (reply: Reply)
      requires channel in states && Live(lex, channel, states[channel])
      modifies user, rng
      ensures Hinted(states[channel], old(user.usage), old(rng.draws), today, reply, user.usage, rng.draws)
      ensures reply.HintGiven? ==> reply.word in lex.wordMap
    {
      var st := states[channel];
      if st.pk {
        reply := HintRefusedPk;
      } else if st.arcade {
        reply := HintRefusedArcade;
      } else {
        var over := user.CheckUsage("solitaireHint", HintMaxUsage, today);
        if over {
          reply := HintQuota;
        } else {
          var words := Elements(st.nextWords);
          var k := rng.Pick(|words|);
          reply := HintGiven(words[k]);
        }
      }
    }

    /** `-w`/`-W` without a word: switch the warnings of the channel's game. */
    method SetWarning(channel: string, on: bool)
      requires channel in states
      modifies this
      ensures states == old(states)[channel := old(states)[channel].(showWarning := on)]
    {
      states := states[channel := states[channel].(showWarning := on)];
    }

    /** A submitted word: the game is judged, then filed again, or dropped when the
        outcome ends it. */
    method Submit(lex: Lexicon, keys: seq<string>, channel: string, user: string, word: string, now: int, rng: Random)
      returns (o: Outcome)
      requires channel in states && Spelled(lex) && Drawable(keys)
      modifies this, rng
      ensures var t := Submitted(lex, keys, old(states)[channel], user, word, now, old(rng.draws));
        o == t.1 && rng.draws == t.2 && states == Stored(old(states), channel, t.0, t.1)
    {
      var r;
      r, o := Engine.Submit(lex, keys, states[channel], user, word, now, rng);
      if Terminal(o) {
        states := states - {channel};
      } else {
        states := states[channel := r];
      }
    }

    /** The timer of a game fires: the game is dropped and the verdict announced. */
    method Expire(channel: string) returns (v: Verdict)
      requires channel in states
      modifies this
      ensures v == TimeoutVerdict(old(states)[channel]) && states == old(states) - {channel}
    {
      v := TimeoutVerdict(states[channel]);
      states := states - {channel};
    }

    /** A start with the game filed live. */
    method Open(lex: Lexicon, keys: seq<string>, channel: string, initiator: string, m: Mode, now: int, rng: Random)
      returns (reply: Reply)
      requires lex.Valid() && Vocabulary(lex, keys) && Valid(lex) && channel !in states
      modifies this, rng
      ensures Valid(lex)
      ensures var t := Opened(lex, keys, channel, initiator, m, now, old(rng.draws));
        reply == (if t.1.Some? then Started(t.1.value) else StartFailed) && rng.draws == t.2 &&
        states == if t.1.Some? then old(states)[channel := t.0] else old(states)
    {
      OpenedLive(lex, keys, channel, initiator, m, now, rng.draws);
      var first := Start(lex, keys, channel, initiator, m, now, rng);
      reply := if first.Some? then Started(first.value) else StartFailed;
    }

    /** A submission with the registry kept live. */
    method Answer(lex: Lexicon, keys: seq<string>, channel: string, user: string, word: string, now: int, rng: Random)
      returns (o: Outcome)
      requires lex.Valid() && Vocabulary(lex, keys) && Valid(lex) && channel in states
      modifies this, rng
      ensures Valid(lex)
      ensures var t := Submitted(lex, keys, old(states)[channel], user, word, now, old(rng.draws));
        o == t.1 && rng.draws == t.2 && states == Stored(old(states), channel, t.0, t.1)
    {
      AnswerKeepsLive(lex, keys, states, channel, user, word, now, rng.draws);
      o := Submit(lex, keys, channel, user, word, now, rng);
    }

    /** The action handler for one message in `channel` from `userId` with the raw `text`:
        the command quota first, then a start where no game is under way, else `Play`.
        `warning` is the one `-w`/`-W` option: a start takes its flag from it, not from `m`. */
    method Handle(lex: Lexicon, keys: seq<string>, channel: string, userId: string, user: User, authority: int,
                  text: string, hint: bool, end: bool, warning: Option<bool>, m: Mode, now: int, today: int,
                  rng: Random) returns (reply: Reply)
      requires lex.Valid() && Vocabulary(lex, keys) && Valid(lex)
      modifies this, user, rng
      ensures Valid(lex)
      ensures var c := Checked(old(user.usage), "solitaire", UsageLimit(Current(old(states), channel), userId), today);
        (reply == QuotaReached <==> c.1) &&
        (c.1 ==> states == old(states) && user.usage == c.0 && rng.draws == old(rng.draws)) &&
        (!c.1 && !(channel in old(states) && !end && hint) ==> user.usage == c.0) &&
        (!c.1 && channel in old(states) && !end && hint ==>
          states == old(states) && Hinted(old(states)[channel], c.0, old(rng.draws), today, reply, user.usage, rng.draws))
      ensures reply != QuotaReached && channel !in old(states) ==>
        if StripWord(text) != "" || hint || end then
          reply == NoGame && states == old(states) && rng.draws == old(rng.draws)
        else var t := Opened(lex, keys, channel, userId, m.(warning := warning == Some(true)), now, old(rng.draws));
          reply == (if t.1.Some? then Started(t.1.value) else StartFailed) && rng.draws == t.2 &&
          states == if t.1.Some? then old(states)[channel := t.0] else old(states)
      ensures reply != QuotaReached && channel in old(states) && end ==>
        (reply == Stopped || reply == StopRefused) &&
        (reply == Stopped <==> userId == old(states)[channel].initiator || authority >= 2) &&
        rng.draws == old(rng.draws) &&
        states == if reply == Stopped then old(states) - {channel} else old(states)
      ensures reply != QuotaReached && channel in old(states) && !end && !hint && StripWord(text) == "" ==>
        rng.draws == old(rng.draws) &&
        if warning.Some? then
          reply == WarningSet(warning.value) &&
          states == old(states)[channel := old(states)[channel].(showWarning := warning.value)]
        else reply == Status && states == old(states)
      ensures reply != QuotaReached && channel in old(states) && !end && !hint && StripWord(text) != "" ==>
        var t := Submitted(lex, keys, old(states)[channel], userId, StripWord(text), now, old(rng.draws));
        reply == Judged(t.1) && rng.draws == t.2 && states == Stored(old(states), channel, t.0, t.1)
    {
      var over := user.CheckUsage("solitaire", UsageLimit(Current(states, channel), userId), today);
      if over {
        return QuotaReached;
      }
      var word := StripWord(text);
      if channel !in states {
        if word != "" || hint || end {
          return NoGame;
        }
        reply := Open(lex, keys, channel, userId, m.(warning := warning == Some(true)), now, rng);
      } else {
        reply := Play(lex, keys, channel, userId, user, authority, word, hint, end, warning, now, today, rng);
      }
    }

    /** The handler once the quota is passed and a game is under way: `--end` stops the
        game, anything else goes to `Ask`. */
    method Play(lex: Lexicon, keys: seq<string>, channel: string, userId: string, user: User, authority: int,
                word: string, hint: bool, end: bool, warning: Option<bool>, now: int, today: int,
                rng: Random) returns (reply: Reply)
      requires lex.Valid() && Vocabulary(lex, keys) && Valid(lex) && channel in states
      modifies this, user, rng
      ensures Valid(lex) && reply != QuotaReached
      ensures end ==>
        (reply == Stopped || reply == StopRefused) &&
        (reply == Stopped <==> userId == old(states)[channel].initiator || authority >= 2) &&
        user.usage == old(user.usage) && rng.draws == old(rng.draws) &&
        states == if reply == Stopped then old(states) - {channel} else old(states)
      ensures !end ==> Asked(lex, keys, old(states), channel, userId, old(user.usage), word, hint, warning, now, today,
                             old(rng.draws), reply, states, user.usage, rng.draws)
    {
      if end {
        DroppedLive(lex, states, channel);
        var stopped := Stop(channel, userId, authority);
        reply := if stopped then Stopped else StopRefused;
      } else {
        reply := Ask(lex, keys, channel, userId, user, word, hint, warning, now, today, rng);
      }
    }

    /** A message without `--end` in a channel with a game: `--hint` asks for a hint,
        anything else goes to `Respond`. */
    method Ask(lex: Lexicon, keys: seq<string>, channel: string, userId: string, user: User,
               word: string, hint: bool, warning: Option<bool>, now: int, today: int,
               rng: Random) returns (reply: Reply)
      requires lex.Valid() && Vocabulary(lex, keys) && Valid(lex) && channel in states
      modifies this, user, rng
      ensures Valid(lex) && reply != QuotaReached
      ensures Asked(lex, keys, old(states), channel, userId, old(user.usage), word, hint, warning, now, today,
                    old(rng.draws), reply, states, user.usage, rng.draws)
    {
      if hint {
        reply := Hint(lex, channel, user, today, rng);
      } else {
        reply := Respond(lex, keys, channel, userId, word, warning, now, rng);
      }
    }

    /** A message with neither `--end` nor `--hint` in a channel with a game: without a
        word `-w`/`-W` switches warnings and otherwise the status is shown; a word is
        submitted. */
    method Respond(lex: Lexicon, keys: seq<string>, channel: string, userId: string, word: string,
                   warning: Option<bool>, now: int, rng: Random) returns (reply: Reply)
      requires lex.Valid() && Vocabulary(lex, keys) && Valid(lex) && channel in states
      modifies this, rng
      ensures Valid(lex)
      ensures word == "" ==>
        rng.draws == old(rng.draws) &&
        if warning.Some? then
          reply == WarningSet(warning.value) &&
          states == old(states)[channel := old(states)[channel].(showWarning := warning.value)]
        else reply == Status && states == old(states)
      ensures word != "" ==>
        var t := Submitted(lex, keys, old(states)[channel], userId, word, now, old(rng.draws));
        reply == Judged(t.1) && rng.draws == t.2 && states == Stored(old(states), channel, t.0, t.1)
    {
      if word == "" {
        if warning.Some? {
          WarningKeepsLive(lex, channel, states[channel], warning.value);
          SetWarning(channel, warning.value);
          reply := WarningSet(warning.value);
        } else {
          reply := Status;
        }
      } else {
        var o := Answer(lex, keys, channel, userId, word, now, rng);
        reply := Judged(o);
      }
    }
  }

  /** What `--hint` does in game `st`, from usage record `usage0` and draws `draws0` to
      `reply`, `usage` and `draws`: refused in PK play, then in arcade play, with the usage
      kept; otherwise the hint quota is checked, and a hint is one of the next words, for
      which one draw is consumed. */
  ghost predicate Hinted(st: State, usage0: Option<Usage>, draws0: seq<nat>, today: int,
                         reply: Reply, usage: Option<Usage>, draws: seq<nat>)
  {
    (st.pk ==> reply == HintRefusedPk && usage == usage0) &&
    (!st.pk && st.arcade ==> reply == HintRefusedArcade && usage == usage0) &&
    (!st.pk && !st.arcade ==>
      (reply == HintQuota || reply.HintGiven?) &&
      (usage, reply == HintQuota) == Checked(usage0, "solitaireHint", HintMaxUsage, today)) &&
    (reply.HintGiven? ==> reply.word in st.nextWords && draws == Advance(draws0)) &&
    (!reply.HintGiven? ==> draws == draws0)
  }

  /** What a message without `--end` does to the game in `channel`, from `states0`,
      `usage0` and `draws0` to `reply`, `states`, `usage` and `draws`: `--hint` is
      `Hinted` and changes no game; otherwise the usage is kept, and without a word
      `-w`/`-W` switches warnings or the status is shown, with no draw; a word is judged
      by `Submitted` and the game filed by `Stored`. */
  ghost predicate Asked(lex: Lexicon, keys: seq<string>, states0: map<string, State>, channel: string, userId: string,
                        usage0: Option<Usage>, word: string, hint: bool, warning: Option<bool>, now: int, today: int,
                        draws0: seq<nat>, reply: Reply, states: map<string, State>, usage: Option<Usage>, draws: seq<nat>)
    requires channel in states0 && Spelled(lex) && Drawable(keys)
  {
    if hint then
      states == states0 && Hinted(states0[channel], usage0, draws0, today, reply, usage, draws)
    else if word == "" then
      usage == usage0 && draws == draws0 &&
      if warning.Some? then
        reply == WarningSet(warning.value) && states == states0[channel := states0[channel].(showWarning := warning.value)]
      else reply == Status && states == states0
    else
      var t := Submitted(lex, keys, states0[channel], userId, word, now, draws0);
      usage == usage0 && reply == Judged(t.1) && draws == t.2 && states == Stored(states0, channel, t.0, t.1)
  }

  /** Dropping a game keeps the others live. */
  lemma DroppedLive(lex: Lexicon, states: map<string, State>, channel: string)
    requires AllLive(lex, states)
    ensures AllLive(lex, states - {channel})
  {
  }

  lemma WarningKeepsLive(lex: Lexicon, channel: string, st: State, on: bool)
    requires Live(lex, channel, st)
    ensures Live(lex, channel, st.(showWarning := on))
  {
    var r := st.(showWarning := on);
    assert r.nextWords == st.nextWords && r.tones == st.tones && r.reverse == st.reverse && r.strict == st.strict;
  }
}
