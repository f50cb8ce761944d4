/** The value-level part of the chain engine of src/index.ts: the tones the next word
    must match (`getNextTones`), the words listed under those tones, the deadline and
    the arcade threshold of `prepareNext`, and the five restriction rules of arcade play. */
module Chain {
  import opened Text
  import opened Dict

  const Minute: int := 60000

  // ---------------------------------------------------------------------------
  // Required tones and candidates (src/index.ts:548-553, 388-394)

  /** `getNextTones(word, reverse, strict)`: the tones the following word must start with
      (end with, in reverse play). They are read off the last character of `word` (its
      first one in reverse play); strict play keeps one tone, the curated override or else
      the first tone of that character. */
  function NextTones(res: Resolver, word: string, reverse: bool, strict: bool): (r: seq<string>)
    requires |word| >= 1
    ensures |r| >= 1 && NoDup(r)
    ensures !strict ==> r == res.LooseTones(word, !reverse)
    ensures strict ==> |r| == 1
    ensures strict && res.StrictTone(word, !reverse).Some? ==> r == [res.StrictTone(word, !reverse).value]
    ensures strict && res.StrictTone(word, !reverse).None? ==> r == [res.LooseTones(word, !reverse)[0]]
  {
    var c := if reverse then word[0] else word[|word| - 1];
    if strict then
      [match Override(if reverse then res.startTones else res.endTones, word)
       case Some(t) => t
       case None => GetTone(res.tables, c)[0]]
    else GetTone(res.tables, c)
  }

  /** The words listed in `dict` under any of `tones`, except the ones in `used`. */
  function Gather(dict: ToneMap, tones: seq<string>, used: set<string>): set<string>
  {
    if tones == [] then {}
    else Gather(dict, tones[..|tones| - 1], used) + (Lookup(dict, tones[|tones| - 1]) - used)
  }

  /** A word is gathered exactly when it is unused and listed under one of the tones. */
  lemma {:induction false} GatherMember(dict: ToneMap, tones: seq<string>, used: set<string>, w: string)
    ensures w in Gather(dict, tones, used) <==> w !in used && exists t :: t in tones && t in dict && w in dict[t]
  {
    if tones != [] {
      var init := tones[..|tones| - 1];
      GatherMember(dict, init, used, w);
      assert forall t :: t in tones <==> t in init || t == tones[|tones| - 1] by {
        assert tones == init + [tones[|tones| - 1]];
      }
    }
  }

  /** The nested loop over `tones` and `dict[tone] || []` that fills a set, skipping used
      words (src/index.ts:388-394; the same loop fills the strict set at 427-433 and the
      `-S`/`-E` search at 188-205). */
  method CollectWords(dict: ToneMap, tones: seq<string>, used: set<string>) returns (r: set<string>)
    ensures r == Gather(dict, tones, used)
  {
    r := {};
    for i := 0 to |tones|
      invariant r == Gather(dict, tones[..i], used)
    {
      r := AddUnused(r, Lookup(dict, tones[i]), used);
      GatherSnoc(dict, tones, used, i);
    }
    assert tones[..|tones|] == tones;
  }

  /** The inner loop: `for (const word of bucket) if (!used.has(word)) r.add(word)`. */
  method AddUnused(r0: set<string>, bucket: set<string>, used: set<string>) returns (r: set<string>)
    ensures r == r0 + (bucket - used)
  {
    r := r0;
    var rest := bucket;
    while rest != {}
      invariant rest <= bucket
      invariant r == r0 + ((bucket - rest) - used)
      decreases |rest|
    {
      var w :| w in rest;
      if w !in used {
        r := r + {w};
      }
      rest := rest - {w};
    }
  }

  lemma GatherSnoc(dict: ToneMap, tones: seq<string>, used: set<string>, i: nat)
    requires i < |tones|
    ensures Gather(dict, tones[..i + 1], used) == Gather(dict, tones[..i], used) + (Lookup(dict, tones[i]) - used)
  {
    assert tones[..i + 1][..i] == tones[..i];
  }

  /** Gathering from an exact table picks the unused words registered under one of the tones. */
  lemma GatherIndexed(res: Resolver, wordMap: map<string, (string, string)>, dict: ToneMap, atEnd: bool, strict: bool,
                      tones: seq<string>, used: set<string>, w: string)
    requires Indexes(res, wordMap, dict, atEnd, strict)
    ensures w in Gather(dict, tones, used) <==>
      w in wordMap && |w| >= 1 && w !in used && exists t :: t in tones && res.Registered(w, t, atEnd, strict)
  {
    GatherMember(dict, tones, used, w);
    var filed := res.Filed(atEnd, strict);
    if w in Gather(dict, tones, used) {
      var t :| t in tones && t in dict && w in dict[t];
      assert w in wordMap.Keys && filed(w, t);
    }
    if w in wordMap && |w| >= 1 && w !in used {
      if t :| t in tones && res.Registered(w, t, atEnd, strict) {
        assert filed(w, t);
        assert t in dict && w in dict[t];
      }
    }
  }

  /** The words that may follow `prev` on a consistent index are exactly the unused
      vocabulary words whose matching boundary reads like the boundary of `prev`: in loose
      play the two boundary characters share a tone, in strict play the candidate's own
      strict tone is the required one. */
  lemma CandidatesChain(lex: Lexicon, prev: string, reverse: bool, strict: bool, used: set<string>, w: string)
    requires lex.Valid() && |prev| >= 1
    ensures w in Gather(lex.ToneDict(reverse, strict), NextTones(lex.res, prev, reverse, strict), used) <==>
      w in lex.wordMap && w !in used &&
      if strict then lex.res.StrictTone(w, reverse) == Some(NextTones(lex.res, prev, reverse, strict)[0])
      else exists t :: t in lex.res.LooseTones(prev, !reverse) && t in lex.res.LooseTones(w, reverse)
  {
    var res, dict := lex.res, lex.ToneDict(reverse, strict);
    var tones := NextTones(res, prev, reverse, strict);
    ToneDictIndexes(lex, reverse, strict);
    GatherIndexed(res, lex.wordMap, dict, reverse, strict, tones, used, w);
    if w in lex.wordMap {
      assert |w| >= 2;
      if strict {
        StrictMatch(res, prev, reverse, w);
      } else {
        LooseMatch(res, prev, reverse, w);
      }
    }
  }

  lemma StrictMatch(res: Resolver, prev: string, reverse: bool, w: string)
    requires |prev| >= 1 && |w| >= 1
    ensures (exists t :: t in NextTones(res, prev, reverse, true) && res.Registered(w, t, reverse, true)) <==>
      res.StrictTone(w, reverse) == Some(NextTones(res, prev, reverse, true)[0])
  {
    var tones := NextTones(res, prev, reverse, true);
    assert tones == [tones[0]];
    if res.StrictTone(w, reverse) == Some(tones[0]) {
      assert tones[0] in tones && res.Registered(w, tones[0], reverse, true);
    }
  }

  lemma LooseMatch(res: Resolver, prev: string, reverse: bool, w: string)
    requires |prev| >= 1 && |w| >= 1
    ensures (exists t :: t in NextTones(res, prev, reverse, false) && res.Registered(w, t, reverse, false)) <==>
      exists t :: t in res.LooseTones(prev, !reverse) && t in res.LooseTones(w, reverse)
  {
    assert NextTones(res, prev, reverse, false) == res.LooseTones(prev, !reverse);
  }

  // ---------------------------------------------------------------------------
  // The deadline (src/index.ts:395-403)

  function Min(a: int, b: int): int { if a <= b then a else b }

  function Max(a: int, b: int): int { if a >= b then a else b }

  /** What each arcade turn takes off the time budget: half a second per turn, up to 100 turns. */
  function Decay(index: nat): (r: nat)
    ensures r <= 50000
    ensures index <= 100 ==> r == 500 * index
  {
    Min(100, index) * 500
  }

  /** The deadline `prepareNext` sets, `timeout` 0 standing for a session without one
      (`state.timeout || Infinity`). Arcade play never grants more than two minutes from
      now, extends a pending deadline by at most a minute less the decay, and always lands
      in the future when the old deadline had not passed; PK play allows two minutes and
      other play thirty. */
  function Deadline(arcade: bool, pk: bool, timeout: int, index: nat, now: int): (r: int)
    ensures arcade ==> r <= now + 2 * Minute
    ensures arcade && timeout != 0 ==> r <= timeout + Minute - Decay(index)
    ensures arcade ==> r == now + 2 * Minute || (timeout != 0 && r == timeout - Decay(index) + Minute)
    ensures arcade && (timeout == 0 || timeout > now) ==> r > now
    ensures !arcade && pk ==> r == now + 2 * Minute
    ensures !arcade && !pk ==> r == now + 30 * Minute
  {
    if arcade then
      (if timeout == 0 then now + Minute else Min(now + Minute, timeout - Decay(index))) + Minute
    else if pk then now + 2 * Minute
    else now + 30 * Minute
  }

  // ---------------------------------------------------------------------------
  // The arcade threshold (src/index.ts:409-410)

  function Cap(index: nat): (r: nat)
    ensures r <= 100
  {
    if index < 100 then index else 100
  }

  /** `max(1, ceil(size * (0.8 - min(100, index) * 0.006)))`, in exact arithmetic: the
      coefficient is `(800 - 6 * min(100, index)) / 1000`. The result is the least whole
      number of at least one that is not below `size` times the coefficient, and never
      exceeds `size`. */
  function Threshold(size: nat, index: nat): (r: nat)
    requires size >= 1
    ensures 1 <= r <= size
    ensures 1000 * r >= size * (800 - 6 * Cap(index))
    ensures r == 1 || 1000 * (r - 1) < size * (800 - 6 * Cap(index))
  {
    var k := 800 - 6 * Cap(index);
    var p := size * k;
    ScaledBounds(size, k);
    var c := (p + 999) / 1000;
    assert p + 999 == 1000 * c + (p + 999) % 1000;
    Max(1, c)
  }

  lemma ScaledBounds(size: nat, k: int)
    requires 200 <= k <= 800
    ensures 200 * size <= size * k <= 800 * size
  {
  }

  // ---------------------------------------------------------------------------
  // The restriction rules (src/index.ts:378-385, 411-463)

  /** A restriction: its label, shown in front of the required tones, and its word list. */
  datatype Rule = Rule(phrase: string, list: set<string>)

  /** `cats`: category prefixes of `wordMap[w][0]` with their display names, in key order. */
  const Categories: seq<(string, string)> := [
    ("角色 /", "角色名"), ("符卡 /", "符卡名"), ("篇目名", "篇目名"),
    ("角色能力", "角色能力"), ("角色称号", "角色称号"), ("格斗作技能", "格斗作技能")
  ]

  function CategoryLabel(name: string): string { "属于" + name + "且" }

  function PolyphoneLabel(reverse: bool): string { "以多音字" + (if reverse then "结尾" else "开头") }

  const StrictLabel: string := "严格模式下"
  const OverlapLabel: string := "首尾字音不同且"

  function AtLeastLabel(n: nat): string { "不少于 " + NatToString(n) + " 个字的" }

  function AtMostLabel(n: nat): string { "不多于 " + NatToString(n) + " 个字的" }

  /** `words.filter(w => wordMap[w][0].startsWith(prefix))` */
  function OfCategory(wordMap: map<string, (string, string)>, ws: set<string>, prefix: string): (r: set<string>)
    ensures r <= ws
  {
    set w | w in ws && w in wordMap && StartsWith(wordMap[w].0, prefix)
  }

  /** `words.filter(w => getNextTones(w, !reverse, false).length > 1)`: the words whose
      matching boundary character is a polyphone. */
  function Polyphones(res: Resolver, ws: set<string>, reverse: bool): (r: set<string>)
    ensures r <= ws
  {
    set w | w in ws && |w| >= 1 && |NextTones(res, w, !reverse, false)| > 1
  }

  /** `words.filter(w => intersection(tones, getNextTones(w, !reverse, strict)).length)` */
  function ChainingBack(res: Resolver, ws: set<string>, tones: seq<string>, reverse: bool, strict: bool): (r: set<string>)
    ensures r <= ws
  {
    set w | w in ws && |w| >= 1 && Intersects(tones, NextTones(res, w, !reverse, strict))
  }

  /** `words.filter(w => w.length > n)` */
  function Longer(ws: set<string>, n: int): (r: set<string>)
    ensures r <= ws
  {
    set w | w in ws && |w| > n
  }

  /** `words.filter(w => w.length < n)` */
  function Shorter(ws: set<string>, n: int): (r: set<string>)
    ensures r <= ws
  {
    set w | w in ws && |w| < n
  }

  /** A one-rule list when the subset's size lies strictly between the threshold and the
      size of the whole set (`list.length > threshold && list.length < size`), else none. */
  function Qualify(th: nat, n: nat, phrase: string, s: set<string>): (r: seq<Rule>)
    ensures |r| <= 1
    ensures r != [] <==> th < |s| < n
  {
    if th < |s| < n then [Rule(phrase, s)] else []
  }

  /** The category loop: visits the categories in order and keeps the latest one whose
      subset is larger than the threshold and smaller than the best so far (than the
      whole set at first). */
  function BestCategory(wordMap: map<string, (string, string)>, ws: set<string>, th: nat,
                        cats: seq<(string, string)>, best: Option<Rule>): Option<Rule>
    decreases |cats|
  {
    if cats == [] then best
    else
      var list := OfCategory(wordMap, ws, cats[0].0);
      var bound := if best.Some? then |best.value.list| else |ws|;
      BestCategory(wordMap, ws, th, cats[1..],
                   if th < |list| < bound then Some(Rule(CategoryLabel(cats[0].1), list)) else best)
  }

  /** The category rule is the tightest one: it is one of the categories, its subset lies
      strictly between the threshold and the whole set, and no category whose subset
      qualifies is smaller. */
  lemma {:induction false} BestCategoryTightest(wordMap: map<string, (string, string)>, ws: set<string>, th: nat,
                                                cats: seq<(string, string)>, best: Option<Rule>)
    requires best.Some? ==> th < |best.value.list| < |ws| && best.value.list <= ws
    ensures var r := BestCategory(wordMap, ws, th, cats, best);
      (r.Some? ==> th < |r.value.list| < |ws| && r.value.list <= ws) &&
      (best.Some? ==> r.Some? && |r.value.list| <= |best.value.list|) &&
      (r.Some? ==> r == best || exists k :: 0 <= k < |cats| &&
                                 r.value == Rule(CategoryLabel(cats[k].1), OfCategory(wordMap, ws, cats[k].0))) &&
      (forall k :: 0 <= k < |cats| && th < |OfCategory(wordMap, ws, cats[k].0)| < |ws| ==>
         r.Some? && |r.value.list| <= |OfCategory(wordMap, ws, cats[k].0)|)
    decreases |cats|
  {
    if cats != [] {
      var list := OfCategory(wordMap, ws, cats[0].0);
      var bound := if best.Some? then |best.value.list| else |ws|;
      var next := if th < |list| < bound then Some(Rule(CategoryLabel(cats[0].1), list)) else best;
      BestCategoryTightest(wordMap, ws, th, cats[1..], next);
      var r := BestCategory(wordMap, ws, th, cats, best);
      assert r == BestCategory(wordMap, ws, th, cats[1..], next);
      if r.Some? && r != best && r != next {
        var k :| 0 <= k < |cats[1..]| && r.value == Rule(CategoryLabel(cats[1..][k].1), OfCategory(wordMap, ws, cats[1..][k].0));
        assert cats[1..][k] == cats[k + 1];
      }
      forall k | 0 <= k < |cats| && th < |OfCategory(wordMap, ws, cats[k].0)| < |ws|
        ensures r.Some? && |r.value.list| <= |OfCategory(wordMap, ws, cats[k].0)|
      {
        if k > 0 {
          assert cats[1..][k - 1] == cats[k];
        }
      }
    }
  }

  /** The category rule, when some category qualifies. */
  function CategoryRules(wordMap: map<string, (string, string)>, ws: set<string>, th: nat): seq<Rule>
  {
    match BestCategory(wordMap, ws, th, Categories, None)
    case Some(r) => [r]
    case None => []
  }

  /** The length of the shortest word of a non-empty set. */
  ghost function MinLen(ws: set<string>): (r: nat)
    requires ws != {}
    ensures forall w :: w in ws ==> r <= |w|
    ensures exists w :: w in ws && |w| == r
  {
    var w :| w in ws;
    if ws == {w} then |w|
    else
      var m := MinLen(ws - {w});
      if |w| <= m then |w| else m
  }

  /** The length of the longest word of a set (0 for none). */
  ghost function MaxLen(ws: set<string>): (r: nat)
    ensures forall w :: w in ws ==> |w| <= r
    ensures ws != {} ==> exists w :: w in ws && |w| == r
  {
    if ws == {} then 0
    else
      var w :| w in ws;
      var m := MaxLen(ws - {w});
      if |w| >= m then |w| else m
  }

  /** Where the lower-bound loop stops: counting up from `i`, the first bound past which
      no more than `th` words remain. */
  ghost function LowerStop(ws: set<string>, th: nat, i: nat): nat
    decreases MaxLen(ws) - i
  {
    if i < MaxLen(ws) && |Longer(ws, i)| > th then LowerStop(ws, th, i + 1) else i
  }

  /** Where the upper-bound loop stops: counting down from `i`, the first bound below which
      no more than `th` words remain. */
  ghost function UpperStop(ws: set<string>, th: nat, i: nat): nat
    requires ws != {}
    decreases i
  {
    if i > MinLen(ws) && |Shorter(ws, i)| > th then UpperStop(ws, th, i - 1) else i
  }

  lemma LongerPastMax(ws: set<string>, i: int)
    requires i >= MaxLen(ws)
    ensures Longer(ws, i) == {}
  {
  }

  lemma ShorterBelowMin(ws: set<string>, i: int)
    requires ws != {} && i <= MinLen(ws)
    ensures Shorter(ws, i) == {}
  {
  }

  /** While more than `th` words are longer than `i`, the lower-bound loop goes on. */
  lemma LowerStopStep(ws: set<string>, th: nat, i: nat)
    requires |Longer(ws, i)| > th
    ensures i < MaxLen(ws) && LowerStop(ws, th, i) == LowerStop(ws, th, i + 1)
  {
    if i >= MaxLen(ws) {
      LongerPastMax(ws, i);
    }
  }

  lemma LowerStopHere(ws: set<string>, th: nat, i: nat)
    requires |Longer(ws, i)| <= th
    ensures LowerStop(ws, th, i) == i
  {
  }

  /** While more than `th` words are shorter than `i`, the upper-bound loop goes on. */
  lemma UpperStopStep(ws: set<string>, th: nat, i: nat)
    requires ws != {} && |Shorter(ws, i)| > th
    ensures i > MinLen(ws) && UpperStop(ws, th, i) == UpperStop(ws, th, i - 1)
  {
    if i <= MinLen(ws) {
      ShorterBelowMin(ws, i);
    }
  }

  lemma UpperStopHere(ws: set<string>, th: nat, i: nat)
    requires ws != {} && |Shorter(ws, i)| <= th
    ensures UpperStop(ws, th, i) == i
  {
  }

  /** The lower-bound loop stops at the first bound from `i` on that leaves at most `th`
      words, and every bound before it leaves more. */
  lemma {:induction false} LowerStopSpec(ws: set<string>, th: nat, i: nat)
    ensures var r := LowerStop(ws, th, i);
      i <= r && |Longer(ws, r)| <= th && forall j :: i <= j < r ==> |Longer(ws, j)| > th
    decreases MaxLen(ws) - i
  {
    if i < MaxLen(ws) && |Longer(ws, i)| > th {
      LowerStopSpec(ws, th, i + 1);
    } else if i >= MaxLen(ws) {
      LongerPastMax(ws, i);
    }
  }

  /** The upper-bound loop stops at the first bound from `i` down that leaves at most `th`
      words, and every bound above it leaves more. */
  lemma {:induction false} UpperStopSpec(ws: set<string>, th: nat, i: nat)
    requires ws != {}
    ensures var r := UpperStop(ws, th, i);
      r <= i && |Shorter(ws, r)| <= th && forall j :: r < j <= i ==> |Shorter(ws, j)| > th
    decreases i
  {
    if i > MinLen(ws) && |Shorter(ws, i)| > th {
      UpperStopSpec(ws, th, i - 1);
    } else if i <= MinLen(ws) {
      ShorterBelowMin(ws, i);
    }
  }

  /** The "at least n characters" rule: from the shortest length up, the largest bound
      that still leaves more than `th` words, when there is one. */
  ghost function LowerRule(ws: set<string>, th: nat): seq<Rule>
    requires ws != {}
  {
    var i := LowerStop(ws, th, MinLen(ws));
    if i > MinLen(ws) then [Rule(AtLeastLabel(i), Longer(ws, i - 1))] else []
  }

  /** The "at most n characters" rule: from the longest length down, the smallest bound
      that still leaves more than `th` words, when there is one. */
  ghost function UpperRule(ws: set<string>, th: nat): seq<Rule>
    requires ws != {}
  {
    var i := UpperStop(ws, th, MaxLen(ws));
    if i < MaxLen(ws) then [Rule(AtMostLabel(i), Shorter(ws, i + 1))] else []
  }

  /** The restriction rules arcade play chooses from, in the order the source lists them:
      category, strict reading (only in loose play), polyphone (only with one required
      tone), matching tones, at least n characters, at most n characters. `ws` is the
      candidate set, `th` the threshold. */
  ghost function ArcadeRules(lex: Lexicon, reverse: bool, strict: bool, tones: seq<string>,
                             used: set<string>, ws: set<string>, th: nat): seq<Rule>
    requires ws != {}
  {
    CategoryRules(lex.wordMap, ws, th)
    + (if strict then [] else Qualify(th, |ws|, StrictLabel, Gather(lex.ToneDict(reverse, true), tones, used)))
    + (if |tones| == 1 then Qualify(th, |ws|, PolyphoneLabel(reverse), Polyphones(lex.res, ws, reverse)) else [])
    + Qualify(th, |ws|, OverlapLabel, ChainingBack(lex.res, ws, tones, reverse, strict))
    + LowerRule(ws, th) + UpperRule(ws, th)
  }

  lemma SubsetSize<T>(a: set<T>, b: set<T>)
    requires a <= b
    ensures |a| <= |b|
    ensures a != b ==> |a| < |b|
  {
    assert b == a + (b - a);
    assert a * (b - a) == {};
    if a != b {
      var x :| x in b - a;
    }
  }

  /** The "at least" rule keeps more than `th` words and drops at least one. */
  lemma LowerRuleInRange(ws: set<string>, th: nat)
    requires ws != {}
    ensures AllInRange(LowerRule(ws, th), ws, th, {})
  {
    var m := MinLen(ws);
    var lo := LowerStop(ws, th, m);
    LowerStopSpec(ws, th, m);
    if lo > m {
      var w :| w in ws && |w| == m;
      assert w !in Longer(ws, lo - 1);
      SubsetSize(Longer(ws, lo - 1), ws);
    }
  }

  /** The "at most" rule keeps more than `th` words and drops at least one. */
  lemma UpperRuleInRange(ws: set<string>, th: nat)
    requires ws != {}
    ensures AllInRange(UpperRule(ws, th), ws, th, {})
  {
    var x := MaxLen(ws);
    var hi := UpperStop(ws, th, x);
    UpperStopSpec(ws, th, x);
    if hi < x {
      var w :| w in ws && |w| == x;
      assert |Shorter(ws, hi + 1)| > th;
      assert w !in Shorter(ws, hi + 1);
      SubsetSize(Shorter(ws, hi + 1), ws);
    }
  }

  /** A rule arcade play may pick: more words than the threshold, fewer than the
      candidates, and either a subset of the candidates or the whole alternative set
      `alt` (the strict-reading rule reads the strict table instead of the candidates). */
  ghost predicate InRange(r: Rule, ws: set<string>, th: nat, alt: set<string>)
  {
    th < |r.list| < |ws| && (r.list <= ws || r.list == alt)
  }

  lemma QualifyInRange(th: nat, phrase: string, s: set<string>, ws: set<string>, alt: set<string>)
    requires s <= ws || s == alt
    ensures AllInRange(Qualify(th, |ws|, phrase, s), ws, th, alt)
  {
  }

  /** Every rule arcade play may pick keeps more words than the threshold and fewer than
      the candidates, so a restriction never empties the set; every rule picks a subset
      of the candidates, except the strict-reading one, which picks the unused words the
      strict table lists under the required tones. */
  lemma ArcadeRulesInRange(lex: Lexicon, reverse: bool, strict: bool, tones: seq<string>,
                           used: set<string>, ws: set<string>, th: nat)
    requires ws != {}
    ensures forall r :: r in ArcadeRules(lex, reverse, strict, tones, used, ws, th) ==>
      InRange(r, ws, th, Gather(lex.ToneDict(reverse, true), tones, used))
  {
    var alt := Gather(lex.ToneDict(reverse, true), tones, used);
    BestCategoryTightest(lex.wordMap, ws, th, Categories, None);
    var cat := CategoryRules(lex.wordMap, ws, th);
    assert AllInRange(cat, ws, th, alt);
    var st := if strict then [] else Qualify(th, |ws|, StrictLabel, Gather(lex.ToneDict(reverse, true), tones, used));
    QualifyInRange(th, StrictLabel, alt, ws, alt);
    var po := if |tones| == 1 then Qualify(th, |ws|, PolyphoneLabel(reverse), Polyphones(lex.res, ws, reverse)) else [];
    QualifyInRange(th, PolyphoneLabel(reverse), Polyphones(lex.res, ws, reverse), ws, alt);
    var ov := Qualify(th, |ws|, OverlapLabel, ChainingBack(lex.res, ws, tones, reverse, strict));
    QualifyInRange(th, OverlapLabel, ChainingBack(lex.res, ws, tones, reverse, strict), ws, alt);
    LowerRuleInRange(ws, th);
    AllInRangeAlt(LowerRule(ws, th), ws, th, alt);
    UpperRuleInRange(ws, th);
    AllInRangeAlt(UpperRule(ws, th), ws, th, alt);
    AllInRangeConcat(cat, st, ws, th, alt);
    AllInRangeConcat(cat + st, po, ws, th, alt);
    AllInRangeConcat(cat + st + po, ov, ws, th, alt);
    AllInRangeConcat(cat + st + po + ov, LowerRule(ws, th), ws, th, alt);
    AllInRangeConcat(cat + st + po + ov + LowerRule(ws, th), UpperRule(ws, th), ws, th, alt);
  }

  ghost predicate AllInRange(rules: seq<Rule>, ws: set<string>, th: nat, alt: set<string>)
  {
    forall r :: r in rules ==> InRange(r, ws, th, alt)
  }

  lemma AllInRangeConcat(a: seq<Rule>, b: seq<Rule>, ws: set<string>, th: nat, alt: set<string>)
    requires AllInRange(a, ws, th, alt) && AllInRange(b, ws, th, alt)
    ensures AllInRange(a + b, ws, th, alt)
  {
  }

  /** Rules drawn from the candidates stay in range whatever the alternative set. */
  lemma AllInRangeAlt(rules: seq<Rule>, ws: set<string>, th: nat, alt: set<string>)
    requires AllInRange(rules, ws, th, {})
    ensures AllInRange(rules, ws, th, alt)
  {
    forall r | r in rules ensures InRange(r, ws, th, alt) {
      assert r.list <= ws || r.list == {};
    }
  }

  /** On a consistent index the matching-tones rule never qualifies: every candidate was
      listed under one of the required tones at its matching boundary, so the filter keeps
      the whole candidate set, which is never smaller than itself. */
  lemma OverlapRuleNeverQualifies(lex: Lexicon, reverse: bool, strict: bool, tones: seq<string>,
                                  used: set<string>, th: nat)
    requires lex.Valid()
    ensures var ws := Gather(lex.ToneDict(reverse, strict), tones, used);
      ChainingBack(lex.res, ws, tones, reverse, strict) == ws &&
      Qualify(th, |ws|, OverlapLabel, ChainingBack(lex.res, ws, tones, reverse, strict)) == []
  {
    var dict := lex.ToneDict(reverse, strict);
    var ws := Gather(dict, tones, used);
    ToneDictIndexes(lex, reverse, strict);
    forall w | w in ws ensures |w| >= 1 && Intersects(tones, NextTones(lex.res, w, !reverse, strict)) {
      GatherMember(dict, tones, used, w);
      var t :| t in tones && t in dict && w in dict[t];
      assert lex.res.Filed(reverse, strict)(w, t);
      var next := NextTones(lex.res, w, !reverse, strict);
      assert t in next;
      var i :| 0 <= i < |tones| && tones[i] == t;
      assert tones[i] in next;
    }
  }

  /** The shortest length in a non-empty list, as `Math.min(...words.map(w => w.length))`. */
  function Shortest(words: seq<string>): (r: nat)
    requires |words| >= 1
    ensures forall i :: 0 <= i < |words| ==> r <= |words[i]|
    ensures exists i :: 0 <= i < |words| && |words[i]| == r
  {
    if |words| == 1 then |words[0]|
    else
      var m := Shortest(words[1..]);
      assert forall i :: 1 <= i < |words| ==> words[1..][i - 1] == words[i];
      if |words[0]| <= m then |words[0]| else m
  }

  /** The longest length in a non-empty list, as `Math.max(...words.map(w => w.length))`. */
  function Longest(words: seq<string>): (r: nat)
    requires |words| >= 1
    ensures forall i :: 0 <= i < |words| ==> |words[i]| <= r
    ensures exists i :: 0 <= i < |words| && |words[i]| == r
  {
    if |words| == 1 then |words[0]|
    else
      var m := Longest(words[1..]);
      assert forall i :: 1 <= i < |words| ==> words[1..][i - 1] == words[i];
      if |words[0]| >= m then |words[0]| else m
  }

  /** The shortest length of a list is that of its set of elements. */
  lemma ShortestIsMinLen(ws: set<string>, words: seq<string>)
    requires ToSet(words) == ws && ws != {}
    ensures Shortest(words) == MinLen(ws)
  {
    var k :| 0 <= k < |words| && |words[k]| == Shortest(words);
    assert words[k] in ws;
    var w :| w in ws && |w| == MinLen(ws);
    assert w in words;
  }

  /** The longest length of a list is that of its set of elements. */
  lemma LongestIsMaxLen(ws: set<string>, words: seq<string>)
    requires ToSet(words) == ws && ws != {}
    ensures Longest(words) == MaxLen(ws)
  {
    var k :| 0 <= k < |words| && |words[k]| == Longest(words);
    assert words[k] in ws;
    var w :| w in ws && |w| == MaxLen(ws);
    assert w in words;
  }

  lemma ArcadeRulesAre(lex: Lexicon, reverse: bool, strict: bool, tones: seq<string>, used: set<string>,
                       ws: set<string>, th: nat, cat: seq<Rule>, st: seq<Rule>, po: seq<Rule>, ov: seq<Rule>,
                       lower: seq<Rule>, upper: seq<Rule>)
    requires ws != {}
    requires cat == CategoryRules(lex.wordMap, ws, th)
    requires st == if strict then [] else Qualify(th, |ws|, StrictLabel, Gather(lex.ToneDict(reverse, true), tones, used))
    requires po == if |tones| == 1 then Qualify(th, |ws|, PolyphoneLabel(reverse), Polyphones(lex.res, ws, reverse)) else []
    requires ov == Qualify(th, |ws|, OverlapLabel, ChainingBack(lex.res, ws, tones, reverse, strict))
    requires lower == LowerRule(ws, th) && upper == UpperRule(ws, th)
    ensures ArcadeRules(lex, reverse, strict, tones, used, ws, th) == cat + st + po + ov + lower + upper
  {
  }

  /** The category loop of `prepareNext` (src/index.ts:414-423). */
  method PickCategory(wordMap: map<string, (string, string)>, ws: set<string>, th: nat) returns (best: Option<Rule>)
    ensures best == BestCategory(wordMap, ws, th, Categories, None)
  {
    best := None;
    for k := 0 to |Categories|
      invariant BestCategory(wordMap, ws, th, Categories[k..], best) == BestCategory(wordMap, ws, th, Categories, None)
    {
      var list := OfCategory(wordMap, ws, Categories[k].0);
      if th < |list| < (if best.Some? then |best.value.list| else |ws|) {
        best := Some(Rule(CategoryLabel(Categories[k].1), list));
      }
      assert Categories[k..][1..] == Categories[k + 1..];
    }
  }

  /** Counting up from `start`, the bound where no more than `th` words remain longer. */
  method LowerLoop(ws: set<string>, th: nat, start: nat) returns (i: nat, bestList: set<string>)
    ensures i == LowerStop(ws, th, start)
    ensures i > start ==> bestList == Longer(ws, i - 1)
  {
    i := start;
    bestList := {};
    while |Longer(ws, i)| > th
      invariant start <= i
      invariant LowerStop(ws, th, i) == LowerStop(ws, th, start)
      invariant i > start ==> bestList == Longer(ws, i - 1)
      decreases MaxLen(ws) - i
    {
      LowerStopStep(ws, th, i);
      bestList := Longer(ws, i);
      i := i + 1;
    }
    LowerStopHere(ws, th, i);
  }

  /** The lower length-bound loop (src/index.ts:454-458), on the candidates `ws` listed as `words`. */
  method AtLeastRule(ws: set<string>, words: seq<string>, th: nat) returns (rules: seq<Rule>)
    requires ToSet(words) == ws && ws != {}
    ensures rules == LowerRule(ws, th)
  {
    var minLength := Shortest(words);
    ShortestIsMinLen(ws, words);
    var i, bestList := LowerLoop(ws, th, minLength);
    rules := if i > minLength then [Rule(AtLeastLabel(i), bestList)] else [];
  }

  /** Counting down from `start`, the bound where no more than `th` words remain shorter. */
  method UpperLoop(ws: set<string>, th: nat, start: nat) returns (i: nat, bestList: set<string>)
    requires ws != {}
    ensures i == UpperStop(ws, th, start)
    ensures i < start ==> bestList == Shorter(ws, i + 1)
  {
    i := start;
    bestList := {};
    while |Shorter(ws, i)| > th
      invariant i <= start
      invariant UpperStop(ws, th, i) == UpperStop(ws, th, start)
      invariant i < start ==> bestList == Shorter(ws, i + 1)
      decreases i
    {
      UpperStopStep(ws, th, i);
      bestList := Shorter(ws, i);
      i := i - 1;
    }
    UpperStopHere(ws, th, i);
  }

  /** The upper length-bound loop (src/index.ts:459-463), on the candidates `ws` listed as `words`. */
  method AtMostRule(ws: set<string>, words: seq<string>, th: nat) returns (rules: seq<Rule>)
    requires ToSet(words) == ws && ws != {}
    ensures rules == UpperRule(ws, th)
  {
    var maxLength := Longest(words);
    LongestIsMaxLen(ws, words);
    var i, bestList := UpperLoop(ws, th, maxLength);
    rules := if i < maxLength then [Rule(AtMostLabel(i), bestList)] else [];
  }

  /** The rule-gathering part of `prepareNext` (src/index.ts:411-463), run on the candidate
      set `ws` listed as `words` (`[...state.nextWords]`), with threshold `th`. */
  method ComputeRules(lex: Lexicon, reverse: bool, strict: bool, tones: seq<string>,
                      used: set<string>, ws: set<string>, words: seq<string>, th: nat)
    returns (rules: seq<Rule>)
    requires ToSet(words) == ws && |words| == |ws| && ws != {}
    ensures rules == ArcadeRules(lex, reverse, strict, tones, used, ws, th)
  {
    var best := PickCategory(lex.wordMap, ws, th);
    var cat := if best.Some? then [best.value] else [];
    var st: seq<Rule> := [];
    if !strict {
      var s := CollectWords(lex.ToneDict(reverse, true), tones, used);
      st := Qualify(th, |ws|, StrictLabel, s);
    }
    var po := if |tones| == 1 then Qualify(th, |ws|, PolyphoneLabel(reverse), Polyphones(lex.res, ws, reverse)) else [];
    var ov := Qualify(th, |ws|, OverlapLabel, ChainingBack(lex.res, ws, tones, reverse, strict));
    var lower := AtLeastRule(ws, words, th);
    var upper := AtMostRule(ws, words, th);
    ArcadeRulesAre(lex, reverse, strict, tones, used, ws, th, cat, st, po, ov, lower, upper);
    rules := cat + st + po + ov + lower + upper;
  }
}
