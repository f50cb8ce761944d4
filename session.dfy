/** One channel's game (`State` in src/index.ts) and the operations that change it:
    `prepareNext`, `createWord` and the accepting half of the action handler, with the
    bookkeeping of PK (versus) play. */
module Engine {
  import opened Text
  import opened Dict
  import opened Chain

  /** The one vocabulary word `createWord` never starts with. */
  const Banned: string := "娘娘"

  /** `createWord` tries `while (++index < 20)`: nineteen draws at most. */
  const Attempts: nat := 19

  // ---------------------------------------------------------------------------
  // What `prepareNext` leaves as the next words (src/index.ts:404-473)

  /** A word may follow when it is in the vocabulary and its matching boundary is
      registered under one of the required tones, in the session's own reading or, for
      the strict-reading restriction of arcade play, in the strict one. */
  ghost predicate Admissible(lex: Lexicon, reverse: bool, strict: bool, tones: seq<string>, w: string)
  {
    w in lex.wordMap && |w| >= 1 &&
    exists t :: t in tones && (lex.res.Registered(w, t, reverse, strict) || lex.res.Registered(w, t, reverse, true))
  }

  /** The arcade part of `prepareNext` on the candidate set `cands`: the new `nextWords`,
      the new `restriction`, and whether a rule was drawn (which consumes one draw). */
  ghost function Restrict(lex: Lexicon, reverse: bool, strict: bool, arcade: bool, tones: seq<string>,
                          used: set<string>, cands: set<string>, index: nat, draws: seq<nat>,
                          restriction: string): (set<string>, string, bool)
  {
    if !arcade || cands == {} then (cands, restriction, false)
    else
      var th := Threshold(|cands|, index);
      if |cands| == th then (cands, "", false)
      else Choose(ArcadeRules(lex, reverse, strict, tones, used, cands, th), cands, draws)
  }

  /** `Random.pick(rules)` when there are rules: its words and its label; otherwise the
      candidates stand and the restriction is cleared. */
  function Choose(rules: seq<Rule>, cands: set<string>, draws: seq<nat>): (set<string>, string, bool)
  {
    if rules == [] then (cands, "", false)
    else
      var r := rules[Drawn(draws, |rules|)];
      (r.list, r.phrase, true)
  }

  /** A drawn rule is one of the rules, so it obeys whatever bound they all obey. */
  lemma ChooseInRange(rules: seq<Rule>, cands: set<string>, th: nat, alt: set<string>, draws: seq<nat>)
    requires th >= 1 && th < |cands|
    requires AllInRange(rules, cands, th, alt)
    ensures var (next, _, drawn) := Choose(rules, cands, draws);
      th < |next| <= |cands| && (next == cands || (|next| < |cands| && (next <= cands || next == alt))) &&
      (drawn <==> rules != [])
  {
    if rules != [] {
      assert rules[Drawn(draws, |rules|)] in rules;
    }
  }

  /** Outside arcade play the candidates stand as they are. In arcade play a restriction
      keeps at least the threshold's number of words and never all of them, drawing them
      from the candidates or, for the strict-reading rule, from the strict table; a
      non-empty candidate set never ends up empty. */
  lemma RestrictNarrows(lex: Lexicon, reverse: bool, strict: bool, arcade: bool, tones: seq<string>,
                        used: set<string>, cands: set<string>, index: nat, draws: seq<nat>, restriction: string)
    requires cands != {}
    ensures var (next, phrase, drawn) := Restrict(lex, reverse, strict, arcade, tones, used, cands, index, draws, restriction);
      next != {} &&
      (!arcade ==> next == cands && phrase == restriction && !drawn) &&
      (arcade ==> Threshold(|cands|, index) <= |next| <= |cands|) &&
      (next == cands || (|next| < |cands| && (next <= cands || next == Gather(lex.ToneDict(reverse, true), tones, used))))
  {
    if arcade {
      var th := Threshold(|cands|, index);
      if |cands| != th {
        var rules := ArcadeRules(lex, reverse, strict, tones, used, cands, th);
        ArcadeRulesInRange(lex, reverse, strict, tones, used, cands, th);
        ChooseInRange(rules, cands, th, Gather(lex.ToneDict(reverse, true), tones, used), draws);
      }
    }
  }

  /** Every word gathered from the session's table, or from the strict one, may follow. */
  lemma GatherAdmissible(lex: Lexicon, reverse: bool, strict: bool, tones: seq<string>, used: set<string>)
    requires lex.Valid()
    ensures forall w :: w in Gather(lex.ToneDict(reverse, strict), tones, used) ==> Admissible(lex, reverse, strict, tones, w)
    ensures forall w :: w in Gather(lex.ToneDict(reverse, true), tones, used) ==> Admissible(lex, reverse, strict, tones, w)
  {
    ToneDictIndexes(lex, reverse, strict);
    ToneDictIndexes(lex, reverse, true);
    forall w | w in Gather(lex.ToneDict(reverse, strict), tones, used)
      ensures Admissible(lex, reverse, strict, tones, w)
    {
      GatherIndexed(lex.res, lex.wordMap, lex.ToneDict(reverse, strict), reverse, strict, tones, used, w);
    }
    forall w | w in Gather(lex.ToneDict(reverse, true), tones, used)
      ensures Admissible(lex, reverse, strict, tones, w)
    {
      GatherIndexed(lex.res, lex.wordMap, lex.ToneDict(reverse, true), reverse, true, tones, used, w);
    }
  }

  /** Whatever the arcade part leaves as next words may follow. */
  lemma RestrictAdmissible(lex: Lexicon, reverse: bool, strict: bool, arcade: bool, tones: seq<string>,
                           used: set<string>, index: nat, draws: seq<nat>, restriction: string)
    requires lex.Valid()
    ensures var cands := Gather(lex.ToneDict(reverse, strict), tones, used);
      forall w :: w in Restrict(lex, reverse, strict, arcade, tones, used, cands, index, draws, restriction).0 ==>
        Admissible(lex, reverse, strict, tones, w)
  {
    var cands := Gather(lex.ToneDict(reverse, strict), tones, used);
    GatherAdmissible(lex, reverse, strict, tones, used);
    if cands != {} {
      RestrictNarrows(lex, reverse, strict, arcade, tones, used, cands, index, draws, restriction);
    }
  }

  /** The arcade part of `prepareNext` (src/index.ts:404-473) on the candidates `cands`
      gathered with `used` and `tones`: the new next words and restriction. */
  method Narrow(lex: Lexicon, reverse: bool, strict: bool, arcade: bool, tones: seq<string>,
                used: set<string>, cands: set<string>, index: nat, restriction: string, rng: Random)
    returns (next: set<string>, phrase: string)
    modifies rng
    ensures var r := Restrict(lex, reverse, strict, arcade, tones, used, cands, index, old(rng.draws), restriction);
      next == r.0 && phrase == r.1 && rng.draws == (if r.2 then Advance(old(rng.draws)) else old(rng.draws))
  {
    if !arcade || |cands| == 0 {
      next, phrase := cands, restriction;
    } else {
      var th := Threshold(|cands|, index);
      if |cands| == th {
        next, phrase := cands, "";
      } else {
        next, phrase := DrawRule(lex, reverse, strict, tones, used, cands, th, rng);
      }
    }
  }

  /** Gathers the rules over the candidates and draws one (src/index.ts:408-472). */
  method DrawRule(lex: Lexicon, reverse: bool, strict: bool, tones: seq<string>,
                  used: set<string>, cands: set<string>, th: nat, rng: Random)
    returns (next: set<string>, phrase: string)
    requires cands != {}
    modifies rng
    ensures var r := Choose(ArcadeRules(lex, reverse, strict, tones, used, cands, th), cands, old(rng.draws));
      next == r.0 && phrase == r.1 && rng.draws == (if r.2 then Advance(old(rng.draws)) else old(rng.draws))
  {
    var list := Elements(cands);
    var rules := ComputeRules(lex, reverse, strict, tones, used, cands, list, th);
    if |rules| > 0 {
      var k := rng.Pick(|rules|);
      next, phrase := rules[k].list, rules[k].phrase;
    } else {
      next, phrase := cands, "";
    }
  }

  // ---------------------------------------------------------------------------
  // Submission checks (src/index.ts:305-320)

  /** Why a submission is turned away, in the order the handler checks. */
  datatype Rejection =
    | Eliminated    // the player is out of this PK game
    | Consecutive   // the same player answered last
    | Used          // the word was played before
    | Unknown       // the word is not in the vocabulary
    | WrongTone     // the word does not follow (or breaks the restriction)

  /** The first check a submission of `word` by `user` fails, if any. */
  function Check(outUsers: set<string>, lastUser: Option<string>, words: set<string>,
                 wordMap: map<string, (string, string)>, nextWords: set<string>,
                 user: string, word: string): (r: Option<Rejection>)
    ensures r.None? <==> user !in outUsers && lastUser != Some(user) && word !in words && word in wordMap && word in nextWords
    ensures r == Some(Eliminated) <==> user in outUsers
    ensures r == Some(Consecutive) <==> user !in outUsers && lastUser == Some(user)
    ensures r == Some(Used) <==> user !in outUsers && lastUser != Some(user) && word in words
    ensures r == Some(Unknown) <==> user !in outUsers && lastUser != Some(user) && word !in words && word !in wordMap
  {
    if user in outUsers then Some(Eliminated)
    else if lastUser == Some(user) then Some(Consecutive)
    else if word in words then Some(Used)
    else if word !in wordMap then Some(Unknown)
    else if word !in nextWords then Some(WrongTone)
    else None
  }

  // ---------------------------------------------------------------------------
  // PK starvation counters (src/index.ts:328-339)

  /** The keys of the counter record, in their order. */
  function Ids(rounds: seq<(string, int)>): (r: seq<string>)
    ensures |r| == |rounds| && forall i :: 0 <= i < |rounds| ==> r[i] == rounds[i].0
  {
    seq(|rounds|, i requires 0 <= i < |rounds| => rounds[i].0)
  }

  /** Where `x` first occurs in `ids`; `|ids|` when it does not. */
  function IndexOf(ids: seq<string>, x: string): (k: nat)
    ensures k <= |ids| && (k < |ids| ==> ids[k] == x)
    ensures forall j :: 0 <= j < k ==> ids[j] != x
    ensures k == |ids| <==> x !in ids
  {
    if ids == [] then 0
    else if ids[0] == x then 0
    else IndexOf(ids[1..], x) + 1
  }

  /** `rounds[id]`: the counter of `id`, if it has one. */
  function Counter(rounds: seq<(string, int)>, id: string): (r: Option<int>)
    ensures r.None? <==> id !in Ids(rounds)
    ensures r.Some? ==> rounds[IndexOf(Ids(rounds), id)] == (id, r.value)
  {
    var k := IndexOf(Ids(rounds), id);
    if k < |rounds| then Some(rounds[k].1) else None
  }

  /** `rounds[id] = v`: an existing key keeps its place, a new one goes last. */
  function SetCounter(rounds: seq<(string, int)>, id: string, v: int): (r: seq<(string, int)>)
  {
    var k := IndexOf(Ids(rounds), id);
    if k < |rounds| then rounds[k := (id, v)] else rounds + [(id, v)]
  }

  /** Setting a counter keeps the keys and their order, adding `id` last when it is new,
      gives `id` the value `v` and leaves every other counter as it was. */
  lemma SetCounterKeys(rounds: seq<(string, int)>, id: string, v: int)
    ensures var r := SetCounter(rounds, id, v);
      Ids(r) == (if id in Ids(rounds) then Ids(rounds) else Ids(rounds) + [id]) &&
      Counter(r, id) == Some(v) &&
      (forall i :: 0 <= i < |rounds| && rounds[i].0 != id ==> r[i] == rounds[i]) &&
      (NoDup(Ids(rounds)) ==> NoDup(Ids(r)))
  {
    var r := SetCounter(rounds, id, v);
    var k := IndexOf(Ids(rounds), id);
    if k < |rounds| {
      assert Ids(r) == Ids(rounds);
    } else {
      assert Ids(r) == Ids(rounds) + [id];
      assert IndexOf(Ids(r), id) == k by {
        IndexOfAt(Ids(r), id, k);
      }
    }
  }

  lemma IndexOfAt(ids: seq<string>, x: string, k: nat)
    requires k < |ids| && ids[k] == x && forall j :: 0 <= j < k ==> ids[j] != x
    ensures IndexOf(ids, x) == k
  {
  }

  /** Each counter one higher. */
  function Incr(rounds: seq<(string, int)>): (r: seq<(string, int)>)
    ensures |r| == |rounds| && forall i :: 0 <= i < |rounds| ==> r[i] == (rounds[i].0, rounds[i].1 + 1)
  {
    seq(|rounds|, i requires 0 <= i < |rounds| => (rounds[i].0, rounds[i].1 + 1))
  }

  /** The first entry whose counter, once incremented, reaches `limit`. */
  function FirstOver(rounds: seq<(string, int)>, limit: int): (r: Option<nat>)
    ensures r.Some? ==> r.value < |rounds| && rounds[r.value].1 + 1 >= limit
    ensures r.Some? ==> forall j :: 0 <= j < r.value ==> rounds[j].1 + 1 < limit
    ensures r.None? ==> forall j :: 0 <= j < |rounds| ==> rounds[j].1 + 1 < limit
  {
    if rounds == [] then None
    else if rounds[0].1 + 1 >= limit then Some(0)
    else match FirstOver(rounds[1..], limit)
      case None => None
      case Some(k) => Some(k + 1)
  }

  lemma FirstOverAt(rounds: seq<(string, int)>, limit: int, i: nat)
    requires i < |rounds| && rounds[i].1 + 1 >= limit
    requires forall j :: 0 <= j < i ==> rounds[j].1 + 1 < limit
    ensures FirstOver(rounds, limit) == Some(i)
  {
  }

  /** The PK bookkeeping after an accepted answer by `user`: the submitter's counter is set
      to -1, then every counter in key order goes up by one until the first that reaches
      twice the number of keys, which is removed and ends the pass. The new record and the
      player removed, if any. */
  function Bump(rounds: seq<(string, int)>, user: string): (seq<(string, int)>, Option<string>)
  {
    var marked := SetCounter(rounds, user, -1);
    match FirstOver(marked, 2 * |marked|)
    case None => (Incr(marked), None)
    case Some(k) => (Incr(marked[..k]) + marked[k + 1..], Some(marked[k].0))
  }

  /** The PK pass removes at most one player, never the submitter, and only one whose
      counter had reached the limit; every other player keeps a counter, the submitter's
      being 0, or -1 when the pass stopped before reaching it. */
  lemma BumpSparesSubmitter(rounds: seq<(string, int)>, user: string)
    requires NoDup(Ids(rounds))
    ensures var (r, gone) := Bump(rounds, user);
      var keys := Ids(SetCounter(rounds, user, -1));
      NoDup(Ids(r)) && gone != Some(user) && user in Ids(r) &&
      (Counter(r, user) == Some(0) || Counter(r, user) == Some(-1)) &&
      (gone.None? ==> Ids(r) == keys) &&
      (gone.Some? ==> (gone.value in Ids(rounds) && |r| == |keys| - 1 &&
        Counter(rounds, gone.value).value + 1 >= 2 * |keys| &&
        forall x :: x in Ids(r) <==> x in keys && x != gone.value))
  {
    var marked := SetCounter(rounds, user, -1);
    SetCounterKeys(rounds, user, -1);
    var p := IndexOf(Ids(marked), user);
    assert marked[p] == (user, -1);
    match FirstOver(marked, 2 * |marked|)
    case None =>
      assert Bump(rounds, user) == (Incr(marked), None);
      BumpNone(marked, p);
    case Some(k) =>
      assert Bump(rounds, user) == (Incr(marked[..k]) + marked[k + 1..], Some(marked[k].0));
      assert k != p;
      BumpSome(marked, p, k);
      assert marked[k].0 != user;
      assert k < |rounds|;
      assert marked[k] == rounds[k];
      CounterOf(rounds, k);
  }

  /** With no removal, every counter goes up and the submitter's ends at 0. */
  lemma BumpNone(marked: seq<(string, int)>, p: nat)
    requires NoDup(Ids(marked)) && p < |marked|
    ensures Ids(Incr(marked)) == Ids(marked)
    ensures Counter(Incr(marked), marked[p].0) == Some(marked[p].1 + 1)
  {
    var r := Incr(marked);
    assert Ids(r) == Ids(marked);
    CounterOf(r, p);
  }

  /** Removing entry `k` leaves the other keys, each once; the entry at `p` keeps its
      counter plus one if it came before `k`, as it was if after. */
  lemma BumpSome(marked: seq<(string, int)>, p: nat, k: nat)
    requires NoDup(Ids(marked)) && p < |marked| && k < |marked| && p != k
    ensures var r := Incr(marked[..k]) + marked[k + 1..];
      NoDup(Ids(r)) && |r| == |marked| - 1 &&
      (forall x :: x in Ids(r) <==> x in Ids(marked) && x != marked[k].0) &&
      Counter(r, marked[p].0) == Some(if p < k then marked[p].1 + 1 else marked[p].1)
  {
    var r := Incr(marked[..k]) + marked[k + 1..];
    var ids := Ids(marked);
    assert Ids(r) == ids[..k] + ids[k + 1..];
    assert ids == ids[..k] + [ids[k]] + ids[k + 1..];
    NoDupRemove(ids[..k], ids[k], ids[k + 1..]);
    var q := if p < k then p else p - 1;
    assert r[q].0 == marked[p].0;
    CounterOf(r, q);
  }

  /** Where an id sits once in the record, its counter is the one at that place. */
  lemma CounterOf(rounds: seq<(string, int)>, p: nat)
    requires p < |rounds| && NoDup(Ids(rounds))
    ensures Counter(rounds, rounds[p].0) == Some(rounds[p].1)
  {
    var k := IndexOf(Ids(rounds), rounds[p].0);
    assert Ids(rounds)[k] == Ids(rounds)[p];
  }

  lemma NoDupRemove(a: seq<string>, x: string, b: seq<string>)
    requires NoDup(a + [x] + b)
    ensures NoDup(a + b) && x !in a + b
  {
    var s := a + [x] + b;
    forall i, j | 0 <= i < j < |a + b| ensures (a + b)[i] != (a + b)[j] {
      var i' := if i < |a| then i else i + 1;
      var j' := if j < |a| then j else j + 1;
      assert s[i'] == (a + b)[i] && s[j'] == (a + b)[j];
    }
    forall i | 0 <= i < |a + b| ensures (a + b)[i] != x {
      var i' := if i < |a| then i else i + 1;
      assert s[i'] == (a + b)[i] && s[|a|] == x;
    }
  }

  // ---------------------------------------------------------------------------
  // The end of a PK chain (src/index.ts:351-368)

  /** How a PK game goes on when a chain dies: nobody wins, somebody wins, or a new chain. */
  datatype PkVerdict = Nobody | Winner(id: Option<string>) | Again

  /** The players of `ids` not in `out`, in order. */
  function Remaining(ids: seq<string>, out: set<string>): (r: seq<string>)
    ensures forall x :: x in r <==> x in ids && x !in out
    ensures |r| <= |ids|
    ensures NoDup(ids) ==> NoDup(r)
  {
    if ids == [] then []
    else
      var rest := Remaining(ids[1..], out);
      assert forall x :: x in ids <==> x == ids[0] || x in ids[1..];
      if ids[0] in out then rest
      else
        assert NoDup(ids) ==> ids[0] !in ids[1..];
        [ids[0]] + rest
  }

  /** `ids.find(id => !out.has(id))` */
  function FirstNotIn(ids: seq<string>, out: set<string>): (r: Option<string>)
    ensures r.None? <==> forall x :: x in ids ==> x in out
    ensures r.Some? ==> r.value in ids && r.value !in out
  {
    if ids == [] then None
    else if ids[0] !in out then Some(ids[0])
    else FirstNotIn(ids[1..], out)
  }

  /** The dead-end decision as written: it compares the number of eliminated players with
      the number of keys of the counter record. */
  function PkEndAsWritten(ids: seq<string>, out: set<string>): PkVerdict
  {
    if |out| == |ids| then Nobody
    else if |out| == |ids| - 1 then Winner(FirstNotIn(ids, out))
    else Again
  }

  /** The dead-end decision as the usage text describes it: the players still in the game
      are the keys that are not eliminated; none left is a draw, one left wins, more
      start a new chain. */
  function PkEnd(ids: seq<string>, out: set<string>): PkVerdict
  {
    var left := Remaining(ids, out);
    if left == [] then Nobody
    else if |left| == 1 then Winner(Some(left[0]))
    else Again
  }

  /** The corrected decision declares a draw exactly when no player is left, a winner
      exactly when one player is left (and it is that player), and a new chain exactly
      when two or more are left. */
  lemma PkEndMeaning(ids: seq<string>, out: set<string>)
    requires NoDup(ids)
    ensures PkEnd(ids, out) == Nobody <==> forall x :: x in ids ==> x in out
    ensures forall w :: PkEnd(ids, out) == Winner(Some(w)) <==>
      w in ids && w !in out && forall x :: x in ids && x !in out ==> x == w
    ensures PkEnd(ids, out) == Again <==>
      exists x, y :: x in ids && y in ids && x !in out && y !in out && x != y
    ensures PkEnd(ids, out) != Winner(None)
  {
    var left := Remaining(ids, out);
    if |left| >= 1 {
      assert left[0] in left;
    }
    if |left| >= 2 {
      assert left[0] in left && left[1] in left;
    }
    if |left| == 1 {
      forall x, y | x in ids && y in ids && x !in out && y !in out ensures x == y {
        assert x in left && y in left;
      }
    }
  }

  /** As written, a game with players b, c, d where a (already removed from the record
      for idleness) and now b are out declares c the winner, though d is still in. */
  lemma PkEndAsWrittenCrownsEarly()
    ensures PkEndAsWritten(["b", "c", "d"], {"a", "b"}) == Winner(Some("c"))
    ensures PkEnd(["b", "c", "d"], {"a", "b"}) == Again
  {
    assert |{"a", "b"}| == 2;
    assert Remaining(["b", "c", "d"], {"a", "b"}) == ["c", "d"];
  }

  /** As written, a game with players b and c where a (already removed from the record)
      and now b are out ends with no winner, though c is still in. */
  lemma PkEndAsWrittenDrawsEarly()
    ensures PkEndAsWritten(["b", "c"], {"a", "b"}) == Nobody
    ensures PkEnd(["b", "c"], {"a", "b"}) == Winner(Some("c"))
  {
    assert |{"a", "b"}| == 2;
    assert Remaining(["b", "c"], {"a", "b"}) == ["c"];
  }

  /** While every eliminated player still has a counter, the written decision and the
      corrected one agree: the two differ only once an eliminated player has been removed
      from the record. */
  lemma PkEndAgrees(ids: seq<string>, out: set<string>)
    requires NoDup(ids) && forall x :: x in out ==> x in ids
    ensures PkEndAsWritten(ids, out) == PkEnd(ids, out)
  {
    RemainingSize(ids, out);
    var left := Remaining(ids, out);
    if |left| == 1 {
      FirstNotInRemaining(ids, out);
    }
  }

  lemma {:induction false} RemainingSize(ids: seq<string>, out: set<string>)
    requires NoDup(ids) && forall x :: x in out ==> x in ids
    ensures |Remaining(ids, out)| == |ids| - |out|
    decreases |ids|
  {
    if ids != [] {
      var x := ids[0];
      assert forall y :: y in ids <==> y == x || y in ids[1..];
      assert x !in ids[1..];
      assert NoDup(ids[1..]);
      RemainingSize(ids[1..], out - {x});
      RemainingSkips(ids[1..], out, x);
    }
  }

  lemma RemainingSkips(ids: seq<string>, out: set<string>, x: string)
    requires x !in ids
    ensures Remaining(ids, out - {x}) == Remaining(ids, out)
  {
    if ids != [] {
      RemainingSkips(ids[1..], out, x);
    }
  }

  lemma {:induction false} FirstNotInRemaining(ids: seq<string>, out: set<string>)
    requires Remaining(ids, out) != []
    ensures FirstNotIn(ids, out) == Some(Remaining(ids, out)[0])
    decreases |ids|
  {
    if ids[0] in out {
      FirstNotInRemaining(ids[1..], out);
    }
  }

  // ---------------------------------------------------------------------------
  // The state of one channel's game (src/index.ts:25-57)

  /** `State`. The tone table `dict` is not kept: it is always `getToneDict(reverse, strict)`. */
  datatype State = State(
    channelId: string,
    initiator: string,
    reverse: bool,
    strict: bool,
    arcade: bool,
    showWarning: bool,
    words: set<string>,         // every word played so far, the first words included
    nextWords: set<string>,
    tones: seq<string>,
    index: nat,
    timeout: int,               // the deadline in milliseconds; 0 while there is none
    alarm: int,                 // when the armed timer fires: the deadline at the last `setTask`
    restriction: string,
    lastUser: Option<string>,
    pk: bool,                   // whether `pkRounds` is defined
    pkRounds: seq<(string, int)>,
    outUsers: set<string>)

  /** The record the handler creates for a new game (src/index.ts:224-238). */
  function NewState(channelId: string, initiator: string, reverse: bool, strict: bool, arcade: bool,
                    showWarning: bool): State
  {
    State(channelId, initiator, reverse, strict, arcade, showWarning, {}, {}, [], 0, 0, 0, "", None,
          false, [], {})
  }

  /** What every game keeps: played words are vocabulary words, each player has one
      counter, and outside PK play nobody is out and nobody has answered. */
  ghost predicate Consistent(lex: Lexicon, st: State)
  {
    st.words <= lex.wordMap.Keys && NoDup(Ids(st.pkRounds)) &&
    (!st.pk ==> st.pkRounds == [] && st.outUsers == {} && st.lastUser.None?)
  }

  /** A game under way: some tone is required and every next word may follow. */
  ghost predicate Valid(lex: Lexicon, st: State)
  {
    Consistent(lex, st) && |st.tones| >= 1 &&
    forall w :: w in st.nextWords ==> Admissible(lex, st.reverse, st.strict, st.tones, w)
  }

  /** `Object.keys(wordMap)`: every vocabulary word once. */
  ghost predicate Vocabulary(lex: Lexicon, keys: seq<string>)
  {
    |keys| > 0 && NoDup(keys) && forall w :: w in keys <==> w in lex.wordMap
  }

  /** Every vocabulary word has a boundary character to match on. */
  predicate Spelled(lex: Lexicon)
  {
    forall w :: w in lex.wordMap ==> |w| >= 1
  }

  /** Something can be drawn from `keys`, and every word drawn has a boundary character. */
  predicate Drawable(keys: seq<string>)
  {
    |keys| > 0 && forall w :: w in keys ==> |w| >= 1
  }

  /** The unused words listed after `word` before any restriction. */
  function Candidates(lex: Lexicon, st: State, word: string): set<string>
    requires |word| >= 1
  {
    Gather(lex.ToneDict(st.reverse, st.strict), NextTones(lex.res, word, st.reverse, st.strict), st.words)
  }

  /** `b` differs from `a` at most in what `prepareNext` and `createWord` set. */
  predicate ChainOnly(a: State, b: State)
  {
    b == a.(tones := b.tones, nextWords := b.nextWords, restriction := b.restriction, timeout := b.timeout,
            index := b.index)
  }

  /** `w` can start a chain from `st`, leaving `r`: an unused vocabulary word other than the
      banned one, after which the game is under way with `w`'s tones and something to
      answer. */
  ghost predicate Starts(lex: Lexicon, st: State, r: State, w: string)
  {
    w in lex.wordMap && w != Banned && w !in st.words && |w| >= 1 && Valid(lex, r) && r.nextWords != {} &&
    r.tones == NextTones(lex.res, w, st.reverse, st.strict)
  }

  /** Arming the timer does not touch the chain. */
  lemma ArmKeepsValid(lex: Lexicon, st: State, alarm: int)
    requires Valid(lex, st)
    ensures Valid(lex, st.(alarm := alarm))
  {
    var r := st.(alarm := alarm);
    assert r.nextWords == st.nextWords && r.tones == st.tones && r.reverse == st.reverse && r.strict == st.strict;
  }

  /** Rounds that found nothing leave what a first word needs as it was. */
  lemma StartsAfter(lex: Lexicon, st: State, s: State, r: State, w: string)
    requires ChainOnly(st, s) && Starts(lex, s, r, w)
    ensures Starts(lex, st, r, w)
  {
  }

  // ---------------------------------------------------------------------------
  // `prepareNext` (src/index.ts:387-474)

  /** The state after `prepareNext(state, word)` with the draws `draws`, its answer, and the
      draws left: the tones become those of `word`, the next words the unused ones listed
      under them, narrowed in arcade play, and the deadline moves. */
  ghost function Prepared(lex: Lexicon, st: State, word: string, now: int, draws: seq<nat>): (State, bool, seq<nat>)
    requires |word| >= 1
  {
    var tones := NextTones(lex.res, word, st.reverse, st.strict);
    var cands := Gather(lex.ToneDict(st.reverse, st.strict), tones, st.words);
    var (next, phrase, drawn) := Restrict(lex, st.reverse, st.strict, st.arcade, tones, st.words, cands, st.index, draws, st.restriction);
    (st.(tones := tones, nextWords := next, restriction := phrase, timeout := Deadline(st.arcade, st.pk, st.timeout, st.index, now)),
     cands != {}, if drawn then Advance(draws) else draws)
  }

  /** `prepareNext` changes only the chain's own fields, and the tones become those of
      `word`. */
  lemma PreparedShape(lex: Lexicon, st: State, word: string, now: int, draws: seq<nat>)
    requires |word| >= 1
    ensures var r := Prepared(lex, st, word, now, draws).0;
      ChainOnly(st, r) && r.index == st.index && r.tones == NextTones(lex.res, word, st.reverse, st.strict)
  {
  }

  /** After `prepareNext` the game is under way: every next word may follow `word`. */
  lemma PreparedValid(lex: Lexicon, st: State, word: string, now: int, draws: seq<nat>)
    requires lex.Valid() && Consistent(lex, st) && word in lex.wordMap
    ensures Valid(lex, Prepared(lex, st, word, now, draws).0)
  {
    var tones := NextTones(lex.res, word, st.reverse, st.strict);
    RestrictAdmissible(lex, st.reverse, st.strict, st.arcade, tones, st.words, st.index, draws, st.restriction);
  }

  /** `prepareNext` answers whether any unused word follows `word`, and when one does,
      something is offered even after an arcade restriction. */
  lemma PreparedAnswers(lex: Lexicon, st: State, word: string, now: int, draws: seq<nat>)
    requires |word| >= 1
    ensures var (r, hasNext, _) := Prepared(lex, st, word, now, draws);
      (hasNext <==> Candidates(lex, st, word) != {}) && (hasNext ==> r.nextWords != {})
  {
    var tones := NextTones(lex.res, word, st.reverse, st.strict);
    var cands := Gather(lex.ToneDict(st.reverse, st.strict), tones, st.words);
    if cands != {} {
      RestrictNarrows(lex, st.reverse, st.strict, st.arcade, tones, st.words, cands, st.index, draws, st.restriction);
    }
  }

  /** Outside arcade play `prepareNext` leaves exactly the candidates and keeps the
      restriction; in arcade play it keeps at least the threshold's number of them when
      there are any, and takes a draw only for a rule. */
  lemma PreparedNarrows(lex: Lexicon, st: State, word: string, now: int, draws: seq<nat>)
    requires |word| >= 1
    ensures var (r, _, rest) := Prepared(lex, st, word, now, draws);
      var cands := Candidates(lex, st, word);
      (!st.arcade ==> r.nextWords == cands && r.restriction == st.restriction && rest == draws) &&
      (st.arcade && cands != {} ==> Threshold(|cands|, st.index) <= |r.nextWords| <= |cands|) &&
      (rest == draws || rest == Advance(draws)) &&
      r.timeout == Deadline(st.arcade, st.pk, st.timeout, st.index, now)
  {
    var tones := NextTones(lex.res, word, st.reverse, st.strict);
    var cands := Gather(lex.ToneDict(st.reverse, st.strict), tones, st.words);
    if cands != {} {
      RestrictNarrows(lex, st.reverse, st.strict, st.arcade, tones, st.words, cands, st.index, draws, st.restriction);
    }
  }

  /** `prepareNext(state, word)`. */
  method PrepareNext(lex: Lexicon, st: State, word: string, now: int, rng: Random) returns (r: State, hasNext: bool)
    requires |word| >= 1
    modifies rng
    ensures (r, hasNext, rng.draws) == Prepared(lex, st, word, now, old(rng.draws))
  {
    var tones := NextTones(lex.res, word, st.reverse, st.strict);
    var cands := CollectWords(lex.ToneDict(st.reverse, st.strict), tones, st.words);
    var timeout := Deadline(st.arcade, st.pk, st.timeout, st.index, now);
    var next, phrase := Narrow(lex, st.reverse, st.strict, st.arcade, tones, st.words, cands, st.index, st.restriction, rng);
    r := st.(tones := tones, nextWords := next, restriction := phrase, timeout := timeout);
    hasNext := |cands| > 0;
  }

  // ---------------------------------------------------------------------------
  // `createWord` (src/index.ts:476-493)

  /** One round of the retry loop of `createWord` over the vocabulary `keys`: a word is
      drawn; one that is not the banned word and not used is prepared, and it is found when
      something can follow it. */
  ghost function Round(lex: Lexicon, keys: seq<string>, s: State, now: int, draws: seq<nat>): (State, Option<string>, seq<nat>)
    requires Drawable(keys)
  {
    var w := keys[Drawn(draws, |keys|)];
    assert w in keys;
    if w != Banned && w !in s.words then
      var (p, ok, d) := Prepared(lex, s, w, now, Advance(draws));
      (p, if ok then Some(w) else None, d)
    else (s, None, Advance(draws))
  }

  /** A round touches only the chain. */
  lemma RoundShape(lex: Lexicon, keys: seq<string>, s: State, now: int, draws: seq<nat>)
    requires Drawable(keys)
    ensures var r := Round(lex, keys, s, now, draws).0;
      ChainOnly(s, r) && r.index == s.index
  {
    var w := keys[Drawn(draws, |keys|)];
    assert w in keys;
    if w != Banned && w !in s.words {
      PreparedShape(lex, s, w, now, Advance(draws));
    }
  }

  /** A word a round finds is an unused vocabulary word other than the banned one, and the
      round leaves a game under way with that word's tones and something to answer. */
  lemma RoundFinds(lex: Lexicon, keys: seq<string>, s: State, now: int, draws: seq<nat>)
    requires lex.Valid() && Consistent(lex, s) && Vocabulary(lex, keys)
    ensures var t := Round(lex, keys, s, now, draws);
      t.1.Some? ==> Starts(lex, s, t.0, t.1.value)
  {
    var w := keys[Drawn(draws, |keys|)];
    assert w in keys;
    if w != Banned && w !in s.words {
      PreparedShape(lex, s, w, now, Advance(draws));
      PreparedValid(lex, s, w, now, Advance(draws));
      PreparedAnswers(lex, s, w, now, Advance(draws));
    }
  }

  /** The state, the word found and the draws left after at most `left` more rounds,
      stopping at the first round that finds a word. */
  ghost function Tries(lex: Lexicon, keys: seq<string>, st: State, now: int, draws: seq<nat>, left: nat): (State, Option<string>, seq<nat>)
    requires Drawable(keys)
    decreases left
  {
    if left == 0 then (st, None, draws)
    else
      var t := Round(lex, keys, st, now, draws);
      if t.1.Some? then t else Tries(lex, keys, t.0, now, t.2, left - 1)
  }

  /** The retry loop touches only the chain. */
  lemma {:induction false} TriesShape(lex: Lexicon, keys: seq<string>, st: State, now: int, draws: seq<nat>, left: nat)
    requires Drawable(keys)
    ensures var r := Tries(lex, keys, st, now, draws, left).0;
      ChainOnly(st, r) && r.index == st.index
    decreases left
  {
    if left > 0 {
      var t := Round(lex, keys, st, now, draws);
      RoundShape(lex, keys, st, now, draws);
      if t.1.None? {
        TriesShape(lex, keys, t.0, now, t.2, left - 1);
        var u := Tries(lex, keys, t.0, now, t.2, left - 1);
        assert Tries(lex, keys, st, now, draws, left) == u;
        ChainOnlyTrans(st, t.0, u.0);
      } else {
        assert Tries(lex, keys, st, now, draws, left) == t;
      }
    }
  }

  lemma ChainOnlyTrans(a: State, b: State, c: State)
    requires ChainOnly(a, b) && ChainOnly(b, c)
    ensures ChainOnly(a, c)
  {
  }

  /** What a round promises of the word it finds holds for the whole retry loop. */
  lemma {:induction false} TriesFind(lex: Lexicon, keys: seq<string>, st: State, now: int, draws: seq<nat>, left: nat)
    requires lex.Valid() && Consistent(lex, st) && Vocabulary(lex, keys)
    ensures var t := Tries(lex, keys, st, now, draws, left);
      t.1.Some? ==> Starts(lex, st, t.0, t.1.value)
    decreases left
  {
    if left > 0 {
      var t := Round(lex, keys, st, now, draws);
      RoundFinds(lex, keys, st, now, draws);
      if t.1.None? {
        RoundShape(lex, keys, st, now, draws);
        TriesFind(lex, keys, t.0, now, t.2, left - 1);
        var u := Tries(lex, keys, t.0, now, t.2, left - 1);
        if u.1.Some? {
          StartsAfter(lex, st, t.0, u.0, u.1.value);
        }
      }
    }
  }

  /** `createWord(state)`: `index` becomes 0, then at most nineteen rounds run. The first
      word found joins the played words and clears `lastUser`; `None` means every round
      failed (the source then drops the game and throws). The draws left come last. */
  ghost function Created(lex: Lexicon, keys: seq<string>, st: State, now: int, draws: seq<nat>): (State, Option<string>, seq<nat>)
    requires Drawable(keys)
  {
    var (s, found, d) := Tries(lex, keys, st.(index := 0), now, draws, Attempts);
    if found.Some? then (s.(words := s.words + {found.value}, lastUser := None), found, d)
    else (s, found, d)
  }

  /** A new chain starts at turn 0, touches only the chain, the played words and who
      answered last, and leaves the players as they were. A first word found joins the
      played words and nobody has answered yet; when none is found the played words stay
      as they were. */
  lemma CreatedShape(lex: Lexicon, keys: seq<string>, st: State, now: int, draws: seq<nat>)
    requires Drawable(keys)
    ensures var (r, first, _) := Created(lex, keys, st, now, draws);
      r.index == 0 &&
      r == st.(tones := r.tones, nextWords := r.nextWords, restriction := r.restriction, timeout := r.timeout,
               index := 0, words := r.words, lastUser := r.lastUser) &&
      (first.None? ==> r.words == st.words && r.lastUser == st.lastUser) &&
      (first.Some? ==> r.words == st.words + {first.value} && r.lastUser.None?)
  {
    TriesShape(lex, keys, st.(index := 0), now, draws, Attempts);
  }

  /** A first word is a vocabulary word other than the banned one and not played before,
      and something can follow it. */
  lemma CreatedStarts(lex: Lexicon, keys: seq<string>, st: State, now: int, draws: seq<nat>)
    requires lex.Valid() && Consistent(lex, st) && Vocabulary(lex, keys)
    ensures var (r, first, _) := Created(lex, keys, st, now, draws);
      first.Some? ==> Starts(lex, st, r, first.value)
  {
    TriesShape(lex, keys, st.(index := 0), now, draws, Attempts);
    TriesFind(lex, keys, st.(index := 0), now, draws, Attempts);
  }

  /** `createWord(state)` over the vocabulary `keys`, drawing from `rng`. */
  method CreateWord(lex: Lexicon, keys: seq<string>, st: State, now: int, rng: Random) returns (r: State, first: Option<string>)
    requires Drawable(keys)
    modifies rng
    ensures (r, first, rng.draws) == Created(lex, keys, st, now, old(rng.draws))
  {
    ghost var draws := rng.draws;
    r := st.(index := 0);
    first := None;
    var n := 0;
    while n < Attempts && first.None?
      invariant n <= Attempts
      invariant Tries(lex, keys, st.(index := 0), now, draws, Attempts) ==
        if first.Some? then (r, first, rng.draws) else Tries(lex, keys, r, now, rng.draws, Attempts - n)
    {
      n := n + 1;
      r, first := TryWord(lex, keys, r, now, rng);
    }
    if first.Some? {
      r := r.(words := r.words + {first.value}, lastUser := None);
    }
  }

  /** One pass of the retry loop: draw a word and prepare the chain after it when it is
      neither banned nor played. */
  method TryWord(lex: Lexicon, keys: seq<string>, s: State, now: int, rng: Random) returns (r: State, found: Option<string>)
    requires Drawable(keys)
    modifies rng
    ensures (r, found, rng.draws) == Round(lex, keys, s, now, old(rng.draws))
  {
    var k := rng.Pick(|keys|);
    var w := keys[k];
    assert w in keys;
    r, found := s, None;
    if w != Banned && w !in s.words {
      var ok;
      r, ok := PrepareNext(lex, s, w, now, rng);
      if ok {
        found := Some(w);
      }
    }
  }

  // ---------------------------------------------------------------------------
  // An accepted answer (src/index.ts:324-340)

  /** The counter loop of src/index.ts:329-339 after an answer by `user`; `gone` is the
      player removed for idleness, if any. */
  method BumpRounds(rounds: seq<(string, int)>, user: string) returns (r: seq<(string, int)>, gone: Option<string>)
    ensures (r, gone) == Bump(rounds, user)
  {
    var marked := SetCounter(rounds, user, -1);
    var count := |marked|;
    var i := 0;
    r := [];
    gone := None;
    while i < count && gone.None?
      invariant 0 <= i <= count
      invariant gone.None? ==> r == Incr(marked[..i]) && forall j :: 0 <= j < i ==> marked[j].1 + 1 < 2 * count
      invariant gone.Some? ==> (r, gone) == Bump(rounds, user)
    {
      if marked[i].1 + 1 >= 2 * count {
        FirstOverAt(marked, 2 * count, i);
        gone := Some(marked[i].0);
        r := r + marked[i + 1..];
      } else {
        assert marked[..i + 1] == marked[..i] + [marked[i]];
        r := r + [(marked[i].0, marked[i].1 + 1)];
      }
      i := i + 1;
    }
    if gone.None? {
      assert marked[..i] == marked;
      assert FirstOver(marked, 2 * count) == None;
    }
  }

  /** The PK bookkeeping after `user`'s answer: the counters are bumped and `user` answered
      last; outside PK play nothing changes. The second component is the player removed
      for idleness, if any. */
  function Counted(p: State, user: string): (State, Option<string>)
  {
    if p.pk then
      var (rounds, gone) := Bump(p.pkRounds, user);
      (p.(pkRounds := rounds, lastUser := Some(user)), gone)
    else (p, None)
  }

  /** The bookkeeping keeps a game under way. */
  lemma CountedValid(lex: Lexicon, p: State, user: string)
    requires Valid(lex, p)
    ensures Valid(lex, Counted(p, user).0)
  {
    if p.pk {
      BumpSparesSubmitter(p.pkRounds, user);
    }
  }

  /** In PK play the submitter answered last, keeps a counter of 0 (or -1 when the pass
      stopped before reaching it) and is never the player removed. */
  lemma CountedSpares(p: State, user: string)
    requires p.pk && NoDup(Ids(p.pkRounds))
    ensures var (r, gone) := Counted(p, user);
      r.lastUser == Some(user) && NoDup(Ids(r.pkRounds)) && user in Ids(r.pkRounds) && gone != Some(user) &&
      (Counter(r.pkRounds, user) == Some(0) || Counter(r.pkRounds, user) == Some(-1))
  {
    BumpSparesSubmitter(p.pkRounds, user);
  }

  /** The PK bookkeeping of the handler. */
  method CountTurn(p: State, user: string) returns (r: State, gone: Option<string>)
    ensures (r, gone) == Counted(p, user)
  {
    r, gone := p, None;
    if p.pk {
      var rounds;
      rounds, gone := BumpRounds(p.pkRounds, user);
      r := p.(pkRounds := rounds, lastUser := Some(user));
    }
  }

  /** The turn is counted and `word` is played. */
  function Played(st: State, word: string): (r: State)
    ensures r.words == st.words + {word} && r.index == st.index + 1
  {
    st.(index := st.index + 1, words := st.words + {word})
  }

  /** The state after `user`'s accepted `word`, whether anything can follow, the player
      removed for idleness and the draws left: the turn is counted, the word is played, the
      next word prepared, and in PK play the counters are bumped and `user` answered last. */
  ghost function Accepted(lex: Lexicon, st: State, user: string, word: string, now: int, draws: seq<nat>)
    : (State, bool, Option<string>, seq<nat>)
    requires |word| >= 1
  {
    var p := Prepared(lex, Played(st, word), word, now, draws);
    var c := Counted(p.0, user);
    (c.0, p.1, c.1, p.2)
  }

  /** An accepted word counts one turn and is played for good, the tones become the word's,
      and only the chain, the counters and who answered last change besides. */
  lemma AcceptedPlays(lex: Lexicon, st: State, user: string, word: string, now: int, draws: seq<nat>)
    requires |word| >= 1
    ensures var r := Accepted(lex, st, user, word, now, draws).0;
      r == st.(index := st.index + 1, words := st.words + {word},
               tones := NextTones(lex.res, word, st.reverse, st.strict), nextWords := r.nextWords,
               restriction := r.restriction, timeout := r.timeout, pkRounds := r.pkRounds,
               lastUser := r.lastUser)
  {
  }

  /** After an accepted word the game is under way. */
  lemma AcceptedValid(lex: Lexicon, st: State, user: string, word: string, now: int, draws: seq<nat>)
    requires lex.Valid() && Consistent(lex, st) && word in lex.wordMap
    ensures Valid(lex, Accepted(lex, st, user, word, now, draws).0)
  {
    var s := Played(st, word);
    PreparedValid(lex, s, word, now, draws);
    CountedValid(lex, Prepared(lex, s, word, now, draws).0, user);
  }

  /** Whether anything follows an accepted word is whether an unused word does, and then
      something is offered. */
  lemma AcceptedAnswers(lex: Lexicon, st: State, user: string, word: string, now: int, draws: seq<nat>)
    requires |word| >= 1
    ensures var (r, hasNext, _, _) := Accepted(lex, st, user, word, now, draws);
      (hasNext <==> Candidates(lex, Played(st, word), word) != {}) &&
      (hasNext ==> r.nextWords != {})
  {
    var s := Played(st, word);
    PreparedAnswers(lex, s, word, now, draws);
  }

  /** In PK play the submitter of an accepted word answered last, keeps a counter and is
      not the player removed for idleness; outside it nobody is removed and the counters
      and the last answer stay as they were. */
  lemma AcceptedCounts(lex: Lexicon, st: State, user: string, word: string, now: int, draws: seq<nat>)
    requires |word| >= 1 && NoDup(Ids(st.pkRounds))
    ensures var (r, _, gone, _) := Accepted(lex, st, user, word, now, draws);
      (!st.pk ==> gone.None? && r.lastUser == st.lastUser && r.pkRounds == st.pkRounds) &&
      (st.pk ==> (r.lastUser == Some(user) && NoDup(Ids(r.pkRounds)) && user in Ids(r.pkRounds) && gone != Some(user) &&
        (Counter(r.pkRounds, user) == Some(0) || Counter(r.pkRounds, user) == Some(-1))))
  {
    var s := Played(st, word);
    PreparedShape(lex, s, word, now, draws);
    if st.pk {
      CountedSpares(Prepared(lex, s, word, now, draws).0, user);
    }
  }

  /** The accepting half of the handler: `index += 1`, `words.add(word)`, `prepareNext` and
      the PK bookkeeping. */
  method Accept(lex: Lexicon, st: State, user: string, word: string, now: int, rng: Random)
    returns (r: State, hasNext: bool, gone: Option<string>)
    requires |word| >= 1
    modifies rng
    ensures (r, hasNext, gone, rng.draws) == Accepted(lex, st, user, word, now, old(rng.draws))
  {
    r := Played(st, word);
    r, hasNext := PrepareNext(lex, r, word, now, rng);
    r, gone := CountTurn(r, user);
  }

  // ---------------------------------------------------------------------------
  // A submitted answer (src/index.ts:305-373)

  /** What an answer led to. */
  datatype Outcome =
    | Rejected(reason: Rejection)
    | Continued                  // the chain goes on
    | Finished                   // no word can follow: the game is over
    | Draw                       // PK: the chain died and no player is left
    | Won(winner: string)        // PK: the chain died and one player is left
    | Restarted(first: string)   // PK: the chain died and a new one starts with `first`
    | Broken                     // PK: no new first word was found: the game is dropped

  /** A dead end in PK play, after the accepted state `a`: the submitter is out; no player
      left is a draw, one player left wins, and otherwise the timer is armed at the current
      deadline and a new chain is started, keeping the played words. */
  ghost function Ended(lex: Lexicon, keys: seq<string>, a: State, user: string, now: int, draws: seq<nat>)
    : (r: (State, Outcome, seq<nat>))
    requires Drawable(keys)
    ensures r.1.Draw? || r.1.Won? || r.1.Restarted? || r.1.Broken?
  {
    var b := a.(outUsers := a.outUsers + {user});
    match PkEnd(Ids(b.pkRounds), b.outUsers)
    case Nobody => (b, Draw, draws)
    case Winner(w) => (b, if w.Some? then Won(w.value) else Draw, draws)
    case Again =>
      var (c, first, d) := Created(lex, keys, b.(alarm := b.timeout), now, draws);
      (c, if first.Some? then Restarted(first.value) else Broken, d)
  }

  /** The PK dead end of src/index.ts:348-368. */
  method EndPk(lex: Lexicon, keys: seq<string>, a: State, user: string, now: int, rng: Random)
    returns (r: State, o: Outcome)
    requires Drawable(keys)
    modifies rng
    ensures (r, o, rng.draws) == Ended(lex, keys, a, user, now, old(rng.draws))
  {
    r := a.(outUsers := a.outUsers + {user});
    match PkEnd(Ids(r.pkRounds), r.outUsers)
    case Nobody =>
      o := Draw;
    case Winner(w) =>
      o := if w.Some? then Won(w.value) else Draw;
    case Again =>
      var first;
      r, first := CreateWord(lex, keys, r.(alarm := r.timeout), now, rng);
      o := if first.Some? then Restarted(first.value) else Broken;
  }

  /** `b` is the same game as `a`: same channel, initiator and kind of play. */
  predicate SameGame(a: State, b: State)
  {
    b.channelId == a.channelId && b.initiator == a.initiator && b.pk == a.pk && b.arcade == a.arcade &&
    b.reverse == a.reverse && b.strict == a.strict
  }

  /** A PK dead end puts the submitter out and keeps the game, its players and its played
      words; a restart is at turn 0 with nobody having answered, and its first word joins
      the played words. */
  lemma EndedKeeps(lex: Lexicon, keys: seq<string>, a: State, user: string, now: int, draws: seq<nat>)
    requires Drawable(keys)
    ensures var (r, o, _) := Ended(lex, keys, a, user, now, draws);
      SameGame(a, r) && a.words <= r.words && r.outUsers == a.outUsers + {user} && r.pkRounds == a.pkRounds &&
      (o.Restarted? ==> r.index == 0 && r.lastUser.None? && r.words == a.words + {o.first})
  {
    var b := a.(outUsers := a.outUsers + {user});
    if PkEnd(Ids(b.pkRounds), b.outUsers) == Again {
      CreatedShape(lex, keys, b.(alarm := b.timeout), now, draws);
    }
  }

  /** The end of a PK game follows the players left once the submitter is out: none is a
      draw, exactly one is the winner (never the submitter), two or more restart the chain
      (or drop the game when no first word is found). */
  lemma EndedDecides(lex: Lexicon, keys: seq<string>, a: State, user: string, now: int, draws: seq<nat>)
    requires Drawable(keys) && NoDup(Ids(a.pkRounds))
    ensures var o := Ended(lex, keys, a, user, now, draws).1;
      var ids, out := Ids(a.pkRounds), a.outUsers + {user};
      (o.Draw? <==> forall x :: x in ids ==> x in out) &&
      (o.Won? ==> (o.winner != user && o.winner in ids && o.winner !in out &&
        forall x :: x in ids && x !in out ==> x == o.winner)) &&
      (o.Restarted? || o.Broken? <==> exists x, y :: x in ids && y in ids && x !in out && y !in out && x != y)
  {
    var b := a.(outUsers := a.outUsers + {user});
    PkEndMeaning(Ids(b.pkRounds), b.outUsers);
  }

  /** A restarted PK chain is under way from a fresh first word. */
  lemma EndedRestarts(lex: Lexicon, keys: seq<string>, a: State, user: string, now: int, draws: seq<nat>)
    requires lex.Valid() && Consistent(lex, a) && Vocabulary(lex, keys)
    ensures var (r, o, _) := Ended(lex, keys, a, user, now, draws);
      o.Restarted? ==> Starts(lex, a, r, o.first)
  {
    var b := a.(outUsers := a.outUsers + {user});
    if PkEnd(Ids(b.pkRounds), b.outUsers) == Again {
      CreatedStarts(lex, keys, b.(alarm := b.timeout), now, draws);
    }
  }

  /** The state, the outcome and the draws left after `user` submits `word`: the checks in
      order; then acceptance; then, on a dead end, the end of the game or, in PK play, the
      elimination of the submitter and a draw, a winner or a new chain. A continued chain
      arms the timer at the new deadline. */
  ghost function Submitted(lex: Lexicon, keys: seq<string>, st: State, user: string, word: string, now: int,
                           draws: seq<nat>): (State, Outcome, seq<nat>)
    requires Spelled(lex) && Drawable(keys)
  {
    match Check(st.outUsers, st.lastUser, st.words, lex.wordMap, st.nextWords, user, word)
    case Some(why) => (st, Rejected(why), draws)
    case None =>
      var (a, hasNext, _, d) := Accepted(lex, st, user, word, now, draws);
      if hasNext then (a.(alarm := a.timeout), Continued, d)
      else if !a.pk then (a, Finished, d)
      else Ended(lex, keys, a, user, now, d)
  }

  /** The submit path of the handler once the game exists and the word is not empty. */
  method Submit(lex: Lexicon, keys: seq<string>, st: State, user: string, word: string, now: int, rng: Random)
    returns (r: State, o: Outcome)
    requires Spelled(lex) && Drawable(keys)
    modifies rng
    ensures (r, o, rng.draws) == Submitted(lex, keys, st, user, word, now, old(rng.draws))
  {
    var why := Check(st.outUsers, st.lastUser, st.words, lex.wordMap, st.nextWords, user, word);
    if why.Some? {
      r, o := st, Rejected(why.value);
    } else {
      var hasNext, gone;
      r, hasNext, gone := Accept(lex, st, user, word, now, rng);
      if hasNext {
        r, o := r.(alarm := r.timeout), Continued;
      } else if !r.pk {
        o := Finished;
      } else {
        r, o := EndPk(lex, keys, r, user, now, rng);
      }
    }
  }

  // ---------------------------------------------------------------------------
  // What a submission leads to

  /** A submission is refused exactly when one of the checks fails, for the first failing
      check's reason, and a refused submission changes nothing and draws nothing. Outside
      PK play nobody is out and nobody has answered last, so only the word checks apply. */
  lemma SubmitRefuses(lex: Lexicon, keys: seq<string>, st: State, user: string, word: string, now: int, draws: seq<nat>)
    requires Spelled(lex) && Drawable(keys) && Consistent(lex, st)
    ensures var t := Submitted(lex, keys, st, user, word, now, draws);
      var why := Check(st.outUsers, st.lastUser, st.words, lex.wordMap, st.nextWords, user, word);
      (t.1.Rejected? <==> why.Some?) &&
      (t.1.Rejected? ==> t.1.reason == why.value && t.0 == st && t.2 == draws) &&
      (!st.pk ==> t.1 != Rejected(Eliminated) && t.1 != Rejected(Consecutive))
  {
    var why := Check(st.outUsers, st.lastUser, st.words, lex.wordMap, st.nextWords, user, word);
    if why.Some? {
      assert Submitted(lex, keys, st, user, word, now, draws) == (st, Rejected(why.value), draws);
    } else {
      SubmittedSteps(lex, keys, st, user, word, now, draws);
    }
  }

  /** An accepted word was offered, unused and follows the required tones, and the player
      was neither out nor the last to answer. */
  lemma SubmitAdmits(lex: Lexicon, keys: seq<string>, st: State, user: string, word: string, now: int, draws: seq<nat>)
    requires Spelled(lex) && Drawable(keys) && Valid(lex, st)
    ensures var o := Submitted(lex, keys, st, user, word, now, draws).1;
      !o.Rejected? ==>
        word in st.nextWords && word !in st.words && Admissible(lex, st.reverse, st.strict, st.tones, word) &&
        user !in st.outUsers && st.lastUser != Some(user)
  {
  }

  /** An accepted word is played for good: the played words only grow, and the game keeps
      its channel, initiator and kind. */
  lemma SubmitKeeps(lex: Lexicon, keys: seq<string>, st: State, user: string, word: string, now: int, draws: seq<nat>)
    requires Spelled(lex) && Drawable(keys)
    ensures var (r, o, _) := Submitted(lex, keys, st, user, word, now, draws);
      !o.Rejected? ==> st.words + {word} <= r.words && SameGame(st, r)
  {
    if Check(st.outUsers, st.lastUser, st.words, lex.wordMap, st.nextWords, user, word).None? {
      AcceptedPlays(lex, st, user, word, now, draws);
      var (a, hasNext, _, d) := Accepted(lex, st, user, word, now, draws);
      if !hasNext && a.pk {
        EndedKeeps(lex, keys, a, user, now, d);
      }
    }
  }

  /** The chain goes on exactly when the answer is accepted and some unused word follows
      it; the turn is then counted, the word played, and the timer armed at the new
      deadline. */
  lemma SubmitContinues(lex: Lexicon, keys: seq<string>, st: State, user: string, word: string, now: int, draws: seq<nat>)
    requires Spelled(lex) && Drawable(keys)
    ensures var (r, o, _) := Submitted(lex, keys, st, user, word, now, draws);
      var why := Check(st.outUsers, st.lastUser, st.words, lex.wordMap, st.nextWords, user, word);
      (o == Continued <==> why.None? && Candidates(lex, Played(st, word), word) != {}) &&
      (o == Continued ==>
        r.nextWords != {} && r.index == st.index + 1 && r.words == st.words + {word} &&
        r.tones == NextTones(lex.res, word, st.reverse, st.strict) && r.alarm == r.timeout &&
        r.outUsers == st.outUsers)
  {
    if Check(st.outUsers, st.lastUser, st.words, lex.wordMap, st.nextWords, user, word).None? {
      AcceptedPlays(lex, st, user, word, now, draws);
      AcceptedAnswers(lex, st, user, word, now, draws);
    }
  }

  /** Past the checks, a submission continues the chain from the accepted state with the
      timer armed, finishes a game outside PK play, or ends a PK chain. */
  lemma SubmittedSteps(lex: Lexicon, keys: seq<string>, st: State, user: string, word: string, now: int, draws: seq<nat>)
    requires Spelled(lex) && Drawable(keys)
    requires Check(st.outUsers, st.lastUser, st.words, lex.wordMap, st.nextWords, user, word).None?
    ensures word in lex.wordMap
    ensures var acc := Accepted(lex, st, user, word, now, draws);
      var a := acc.0;
      (acc.1 ==> Submitted(lex, keys, st, user, word, now, draws) == (a.(alarm := a.timeout), Continued, acc.3)) &&
      (!acc.1 && !a.pk ==> Submitted(lex, keys, st, user, word, now, draws) == (a, Finished, acc.3)) &&
      (!acc.1 && a.pk ==> Submitted(lex, keys, st, user, word, now, draws) == Ended(lex, keys, a, user, now, acc.3))
  {
  }

  /** A continued chain is a game under way. */
  lemma SubmitContinuesValid(lex: Lexicon, keys: seq<string>, st: State, user: string, word: string, now: int, draws: seq<nat>)
    requires lex.Valid() && Consistent(lex, st) && Drawable(keys)
    ensures Submitted(lex, keys, st, user, word, now, draws).1 == Continued ==>
      Valid(lex, Submitted(lex, keys, st, user, word, now, draws).0)
  {
    assert Spelled(lex);
    ContinuedArmed(lex, keys, st, user, word, now, draws);
    if Submitted(lex, keys, st, user, word, now, draws).1 == Continued {
      AcceptedValid(lex, st, user, word, now, draws);
      var a := Accepted(lex, st, user, word, now, draws).0;
      ArmKeepsValid(lex, a, a.timeout);
    }
  }

  /** A continued chain is the accepted state with the timer armed. */
  lemma ContinuedArmed(lex: Lexicon, keys: seq<string>, st: State, user: string, word: string, now: int, draws: seq<nat>)
    requires Spelled(lex) && Drawable(keys)
    ensures Submitted(lex, keys, st, user, word, now, draws).1 == Continued ==>
      word in lex.wordMap &&
      Submitted(lex, keys, st, user, word, now, draws).0 ==
        Accepted(lex, st, user, word, now, draws).0.(alarm := Accepted(lex, st, user, word, now, draws).0.timeout)
  {
    if Check(st.outUsers, st.lastUser, st.words, lex.wordMap, st.nextWords, user, word).None? {
      SubmittedSteps(lex, keys, st, user, word, now, draws);
    }
  }

  /** In PK play the submitter of a continued chain answered last and keeps a counter of 0,
      or of -1 when the idle pass stopped before reaching it. */
  lemma SubmitCounts(lex: Lexicon, keys: seq<string>, st: State, user: string, word: string, now: int, draws: seq<nat>)
    requires Spelled(lex) && Drawable(keys) && Consistent(lex, st)
    ensures var (r, o, _) := Submitted(lex, keys, st, user, word, now, draws);
      st.pk && o == Continued ==>
        r.lastUser == Some(user) && (Counter(r.pkRounds, user) == Some(0) || Counter(r.pkRounds, user) == Some(-1))
  {
    if Check(st.outUsers, st.lastUser, st.words, lex.wordMap, st.nextWords, user, word).None? {
      AcceptedCounts(lex, st, user, word, now, draws);
    }
  }

  /** Outside PK play a dead end finishes the game: exactly when the answer was accepted
      and no unused word follows it. */
  lemma SubmitFinishes(lex: Lexicon, keys: seq<string>, st: State, user: string, word: string, now: int, draws: seq<nat>)
    requires Spelled(lex) && Drawable(keys)
    ensures var (r, o, _) := Submitted(lex, keys, st, user, word, now, draws);
      var why := Check(st.outUsers, st.lastUser, st.words, lex.wordMap, st.nextWords, user, word);
      (o == Finished <==> !st.pk && why.None? && Candidates(lex, Played(st, word), word) == {}) &&
      (o == Finished ==> r.words == st.words + {word} && r.index == st.index + 1)
  {
    if Check(st.outUsers, st.lastUser, st.words, lex.wordMap, st.nextWords, user, word).None? {
      AcceptedPlays(lex, st, user, word, now, draws);
      AcceptedAnswers(lex, st, user, word, now, draws);
    }
  }

  /** In PK play a dead end puts the submitter out; the game is drawn when no player is
      left, won by the one player left, who is not the submitter, and otherwise restarted
      with a fresh first word (or dropped when none is found). */
  lemma SubmitEndsPk(lex: Lexicon, keys: seq<string>, st: State, user: string, word: string, now: int, draws: seq<nat>)
    requires Spelled(lex) && Drawable(keys) && Consistent(lex, st)
    ensures var t := Submitted(lex, keys, st, user, word, now, draws);
      var ids, out, o := Ids(t.0.pkRounds), t.0.outUsers, t.1;
      (o.Draw? || o.Won? || o.Restarted? || o.Broken? ==>
        st.pk && out == st.outUsers + {user} && Candidates(lex, Played(st, word), word) == {}) &&
      (o.Draw? ==> forall x :: x in ids ==> x in out) &&
      (o.Won? ==> (o.winner != user && o.winner in ids && o.winner !in out &&
        forall x :: x in ids && x !in out ==> x == o.winner)) &&
      (o.Restarted? || o.Broken? ==> exists x, y :: x in ids && y in ids && x !in out && y !in out && x != y)
  {
    EndedBranch(lex, keys, st, user, word, now, draws);
    var o := Submitted(lex, keys, st, user, word, now, draws).1;
    if o.Draw? || o.Won? || o.Restarted? || o.Broken? {
      var acc := Accepted(lex, st, user, word, now, draws);
      AcceptedPlays(lex, st, user, word, now, draws);
      AcceptedAnswers(lex, st, user, word, now, draws);
      AcceptedCounts(lex, st, user, word, now, draws);
      EndedKeeps(lex, keys, acc.0, user, now, acc.3);
      EndedDecides(lex, keys, acc.0, user, now, acc.3);
    }
  }

  /** A PK chain restarted after a dead end starts at turn 0 with nobody having answered,
      and its first word joins the played words. */
  lemma SubmitRestarts(lex: Lexicon, keys: seq<string>, st: State, user: string, word: string, now: int, draws: seq<nat>)
    requires Spelled(lex) && Drawable(keys)
    ensures var t := Submitted(lex, keys, st, user, word, now, draws);
      t.1.Restarted? ==> t.0.index == 0 && t.0.lastUser.None? && t.0.words == st.words + {word, t.1.first}
  {
    EndedBranch(lex, keys, st, user, word, now, draws);
    if Submitted(lex, keys, st, user, word, now, draws).1.Restarted? {
      var acc := Accepted(lex, st, user, word, now, draws);
      AcceptedPlays(lex, st, user, word, now, draws);
      EndedKeeps(lex, keys, acc.0, user, now, acc.3);
    }
  }

  /** A restarted PK chain is a game under way from a fresh first word: unused so far, not
      the word just played, not the banned word, and something can follow it. */
  lemma SubmitRestartsValid(lex: Lexicon, keys: seq<string>, st: State, user: string, word: string, now: int, draws: seq<nat>)
    requires lex.Valid() && Consistent(lex, st) && Vocabulary(lex, keys)
    ensures var t := Submitted(lex, keys, st, user, word, now, draws);
      t.1.Restarted? ==>
        Valid(lex, t.0) && t.0.nextWords != {} && t.1.first !in st.words + {word} && t.1.first != Banned &&
        t.1.first in lex.wordMap && t.0.tones == NextTones(lex.res, t.1.first, st.reverse, st.strict)
  {
    assert Spelled(lex);
    EndedBranch(lex, keys, st, user, word, now, draws);
    if Submitted(lex, keys, st, user, word, now, draws).1.Restarted? {
      var acc := Accepted(lex, st, user, word, now, draws);
      AcceptedPlays(lex, st, user, word, now, draws);
      AcceptedValid(lex, st, user, word, now, draws);
      EndedRestarts(lex, keys, acc.0, user, now, acc.3);
    }
  }

  /** A PK dead end is the accepted state handed to the end of the PK chain. */
  lemma EndedBranch(lex: Lexicon, keys: seq<string>, st: State, user: string, word: string, now: int, draws: seq<nat>)
    requires Spelled(lex) && Drawable(keys)
    ensures var o := Submitted(lex, keys, st, user, word, now, draws).1;
      o.Draw? || o.Won? || o.Restarted? || o.Broken? ==>
        word in lex.wordMap && |word| >= 1 &&
        Check(st.outUsers, st.lastUser, st.words, lex.wordMap, st.nextWords, user, word).None? &&
        var acc := Accepted(lex, st, user, word, now, draws);
        !acc.1 && acc.0.pk && Submitted(lex, keys, st, user, word, now, draws) == Ended(lex, keys, acc.0, user, now, acc.3)
  {
    if Check(st.outUsers, st.lastUser, st.words, lex.wordMap, st.nextWords, user, word).None? {
      SubmittedSteps(lex, keys, st, user, word, now, draws);
    }
  }
}
