/** The phonetic index of src/dict.ts: the character-to-pinyin table inverted from
    the pinyin table, tone resolution of a single character, input normalisation,
    and the four tone-indexed word tables built word by word by `loadTone`. */
module Dict {
  import opened Text

  /** `pinyinMap`: each pinyin with the string of characters read that way, in key order. */
  type PinyinTable = seq<(string, string)>

  /** `PHONETIC`: a phonetic marker character to its (tone letter, pitch suffix) pair. */
  type PhoneticTable = map<char, (string, string)>

  /** A tone code to the set of words registered under it. */
  type ToneMap = map<string, set<string>>

  // ---------------------------------------------------------------------------
  // Inverting the pinyin table (src/dict.ts:8-17)

  /** The (character, pinyin) pairs in the order the inversion loop visits them. */
  function Visits(table: PinyinTable): seq<(char, string)>
  {
    if |table| == 0 then [] else Visits(table[..|table| - 1]) + EntryVisits(table[|table| - 1])
  }

  function EntryVisits(entry: (string, string)): (r: seq<(char, string)>)
    ensures |r| == |entry.1|
    ensures forall k :: 0 <= k < |r| ==> r[k] == (entry.1[k], entry.0)
  {
    seq(|entry.1|, k requires 0 <= k < |entry.1| => (entry.1[k], entry.0))
  }

  /** The pinyins `c` is listed under, once per listing, in visiting order. */
  function Readings(visits: seq<(char, string)>, c: char): seq<string>
  {
    if |visits| == 0 then []
    else Readings(visits[..|visits| - 1], c)
         + (if visits[|visits| - 1].0 == c then [visits[|visits| - 1].1] else [])
  }

  /** The characters the visited pairs list. */
  function Listed(visits: seq<(char, string)>): set<char>
  {
    set i | 0 <= i < |visits| :: visits[i].0
  }

  /** `charMap` inverts the visited pairs: its keys are the listed characters, and each
      maps to its readings joined by commas. */
  ghost predicate Inverts(charMap: map<char, string>, visits: seq<(char, string)>)
  {
    charMap.Keys == Listed(visits) &&
    (forall c :: c in charMap ==> Readings(visits, c) != [] && charMap[c] == Join(Readings(visits, c)))
  }

  lemma ReadingsSnoc(visits: seq<(char, string)>, v: (char, string))
    ensures forall c :: Readings(visits + [v], c) == Readings(visits, c) + (if v.0 == c then [v.1] else [])
  {
    assert (visits + [v])[..|visits|] == visits;
  }

  lemma InvertsStep(charMap: map<char, string>, visits: seq<(char, string)>, ch: char, pinyin: string)
    requires Inverts(charMap, visits)
    ensures Inverts(if ch in charMap then charMap[ch := charMap[ch] + "," + pinyin] else charMap[ch := pinyin],
                    visits + [(ch, pinyin)])
  {
    var m2 := if ch in charMap then charMap[ch := charMap[ch] + "," + pinyin] else charMap[ch := pinyin];
    var v2 := visits + [(ch, pinyin)];
    ReadingsSnoc(visits, (ch, pinyin));
    assert Listed(v2) == Listed(visits) + {ch} by {
      forall x | x in Listed(v2) ensures x in Listed(visits) + {ch} {
        var i :| 0 <= i < |v2| && v2[i].0 == x;
        if i < |visits| { assert visits[i].0 == x; }
      }
      forall x | x in Listed(visits) ensures x in Listed(v2) {
        var i :| 0 <= i < |visits| && visits[i].0 == x;
        assert v2[i].0 == x;
      }
      assert v2[|visits|].0 == ch;
    }
    var rs := Readings(visits, ch);
    var rs2 := rs + [pinyin];
    assert Readings(v2, ch) == rs2;
    if ch in charMap {
      assert rs2[..|rs2| - 1] == rs;
      assert Join(rs2) == Join(rs) + "," + pinyin;
    } else {
      ReadingsListed(visits, ch);
      assert rs2 == [pinyin];
    }
    forall c | c in m2 ensures Readings(v2, c) != [] && m2[c] == Join(Readings(v2, c)) {
      if c != ch {
        assert Readings(v2, c) == Readings(visits, c);
        assert m2[c] == charMap[c];
      }
    }
  }

  lemma VisitsSnoc(table: PinyinTable, i: nat)
    requires i < |table|
    ensures Visits(table[..i + 1]) == Visits(table[..i]) + EntryVisits(table[i])
  {
    assert table[..i + 1][..i] == table[..i];
  }

  /** The inner loop: list every character of one table entry under its pinyin. */
  method AddReadings(charMap: map<char, string>, pinyin: string, chars: string, ghost visited: seq<(char, string)>)
    returns (r: map<char, string>)
    requires Inverts(charMap, visited)
    ensures Inverts(r, visited + EntryVisits((pinyin, chars)))
  {
    r := charMap;
    ghost var entry := EntryVisits((pinyin, chars));
    assert visited + entry[..0] == visited;
    for j := 0 to |chars|
      invariant Inverts(r, visited + entry[..j])
    {
      var ch := chars[j];
      ghost var before := visited + entry[..j];
      InvertsStep(r, before, ch, pinyin);
      assert visited + entry[..j + 1] == before + [(ch, pinyin)] by {
        assert entry[..j + 1] == entry[..j] + [entry[j]];
      }
      if ch in r {
        r := r[ch := r[ch] + "," + pinyin];
      } else {
        r := r[ch := pinyin];
      }
    }
    assert entry[..|chars|] == entry;
  }

  /** The loop at the top of src/dict.ts that builds `charMap` from `pinyinMap`. */
  method BuildCharMap(table: PinyinTable) returns (charMap: map<char, string>)
    ensures Inverts(charMap, Visits(table))
  {
    charMap := map[];
    for i := 0 to |table|
      invariant Inverts(charMap, Visits(table[..i]))
    {
      charMap := AddReadings(charMap, table[i].0, table[i].1, Visits(table[..i]));
      VisitsSnoc(table, i);
    }
    assert table[..|table|] == table;
  }

  /** Every reading of a character is a pinyin of the table. */
  lemma {:induction false} ReadingsAreKeys(table: PinyinTable, c: char)
    ensures forall r :: r in Readings(Visits(table), c) ==> exists e :: e in table && e.0 == r
  {
    if |table| > 0 {
      var init, last := table[..|table| - 1], table[|table| - 1];
      ReadingsAreKeys(init, c);
      ReadingsAppend(Visits(init), EntryVisits(last), c);
      forall r | r in Readings(Visits(table), c) ensures exists e :: e in table && e.0 == r {
        if r in Readings(Visits(init), c) {
          var e :| e in init && e.0 == r;
          assert e in table;
        } else {
          ReadingsOf(EntryVisits(last), c, r);
          assert last in table;
        }
      }
    }
  }

  lemma {:induction false} ReadingsAppend(a: seq<(char, string)>, b: seq<(char, string)>, c: char)
    ensures Readings(a + b, c) == Readings(a, c) + Readings(b, c)
    decreases |b|
  {
    if |b| == 0 {
      assert a + b == a;
    } else {
      var init := b[..|b| - 1];
      ReadingsAppend(a, init, c);
      assert (a + b)[..|a + b| - 1] == a + init;
    }
  }

  lemma {:induction false} ReadingsOf(visits: seq<(char, string)>, c: char, r: string)
    requires r in Readings(visits, c)
    ensures (c, r) in visits
  {
    var init := visits[..|visits| - 1];
    if r in Readings(init, c) {
      ReadingsOf(init, c, r);
    }
  }

  /** A character with a reading is listed. */
  lemma ReadingsListed(visits: seq<(char, string)>, c: char)
    ensures Readings(visits, c) != [] ==> c in Listed(visits)
  {
    if Readings(visits, c) != [] {
      var r := Readings(visits, c)[0];
      ReadingsOf(visits, c, r);
      var i :| 0 <= i < |visits| && visits[i] == (c, r);
      assert visits[i].0 == c;
    }
  }

  // ---------------------------------------------------------------------------
  // Tone resolution of one character (src/dict.ts:22-28)

  /** `getPinyin`: the comma-separated readings, or the character itself when it has
      none (or an empty one). */
  function GetPinyin(charMap: map<char, string>, c: char): (r: seq<string>)
    ensures |r| >= 1
    ensures c !in charMap ==> r == [[c]]
  {
    if c in charMap && charMap[c] != "" then Split(charMap[c]) else [[c]]
  }

  /** For the table-built `charMap`, `getPinyin` returns exactly the readings of the
      character (pinyins being non-empty and comma-free), or `[c]` for an unlisted one. */
  lemma PinyinFromTable(table: PinyinTable, charMap: map<char, string>, c: char)
    requires Inverts(charMap, Visits(table))
    requires forall e :: e in table ==> e.0 != "" && ',' !in e.0
    ensures var rs := Readings(Visits(table), c);
            GetPinyin(charMap, c) == if rs == [] then [[c]] else rs
  {
    var rs := Readings(Visits(table), c);
    if rs != [] {
      ReadingsListed(Visits(table), c);
      ReadingsAreKeys(table, c);
      assert forall i :: 0 <= i < |rs| ==> ',' !in rs[i] by {
        forall i | 0 <= i < |rs| ensures ',' !in rs[i] {
          assert rs[i] in rs;
        }
      }
      assert rs[|rs| - 1] in rs;
      JoinNonEmpty(rs);
      SplitJoin(rs);
    }
  }

  /** The marker substitution of `getTone`: every marker character becomes its tone letter. */
  function Rewrite(phonetic: PhoneticTable, s: string): string
  {
    if s == [] then []
    else (if s[0] in phonetic then phonetic[s[0]].0 else [s[0]]) + Rewrite(phonetic, s[1..])
  }

  /** The substitution works character by character. */
  lemma {:induction false} RewriteConcat(phonetic: PhoneticTable, a: string, b: string)
    ensures Rewrite(phonetic, a + b) == Rewrite(phonetic, a) + Rewrite(phonetic, b)
  {
    if a == [] {
      assert a + b == b;
    } else {
      assert (a + b)[0] == a[0];
      assert (a + b)[1..] == a[1..] + b;
      RewriteConcat(phonetic, a[1..], b);
    }
  }

  /** A pinyin with no marker is left as it is. */
  lemma {:induction false} RewriteUnmarked(phonetic: PhoneticTable, s: string)
    requires forall i :: 0 <= i < |s| ==> s[i] !in phonetic
    ensures Rewrite(phonetic, s) == s
  {
    if s != [] {
      RewriteUnmarked(phonetic, s[1..]);
    }
  }

  /** When no tone letter is itself a marker, no marker survives the substitution. */
  lemma {:induction false} RewriteClearsMarkers(phonetic: PhoneticTable, s: string)
    requires forall m, i :: m in phonetic && 0 <= i < |phonetic[m].0| ==> phonetic[m].0[i] !in phonetic
    ensures forall i :: 0 <= i < |Rewrite(phonetic, s)| ==> Rewrite(phonetic, s)[i] !in phonetic
  {
    if s != [] {
      RewriteClearsMarkers(phonetic, s[1..]);
    }
  }

  function RewriteAll(phonetic: PhoneticTable, ps: seq<string>): (r: seq<string>)
    ensures |r| == |ps|
    ensures forall i :: 0 <= i < |ps| ==> r[i] == Rewrite(phonetic, ps[i])
  {
    seq(|ps|, i requires 0 <= i < |ps| => Rewrite(phonetic, ps[i]))
  }

  /** What tone resolution needs: the inverted table and the phonetic markers. */
  datatype ToneTables = ToneTables(charMap: map<char, string>, phonetic: PhoneticTable)

  /** `getTone`: the rewritten pinyins of a character, each once, first occurrence first. */
  function GetTone(t: ToneTables, c: char): (r: seq<string>)
    ensures |r| >= 1 && NoDup(r)
    ensures forall x :: x in r <==> x in RewriteAll(t.phonetic, GetPinyin(t.charMap, c))
    ensures r[0] == Rewrite(t.phonetic, GetPinyin(t.charMap, c)[0])
  {
    Dedup(RewriteAll(t.phonetic, GetPinyin(t.charMap, c)))
  }

  /** A character that is neither tabulated nor a marker is its own single tone. */
  lemma UnlistedTone(t: ToneTables, c: char)
    requires c !in t.charMap && c !in t.phonetic
    ensures GetTone(t, c) == [[c]]
  {
    assert Rewrite(t.phonetic, [c]) == [c];
  }

  // ---------------------------------------------------------------------------
  // Input normalisation (src/dict.ts:43-45)

  /** JavaScript's `\s`. */
  predicate IsSpace(c: char)
  {
    ('\t' <= c <= '\r') || c == ' ' || c == '\U{00A0}' || c == '\U{1680}'
    || ('\U{2000}' <= c <= '\U{200A}') || c == '\U{2028}' || c == '\U{2029}'
    || c == '\U{202F}' || c == '\U{205F}' || c == '\U{3000}' || c == '\U{FEFF}'
  }

  /** The punctuation of `stripWord`'s character class besides `\s`. */
  const StripPunctuation: set<char> := {
    '\U{3002}', '.', '\U{FF0C}', ',', '\U{FF1F}', '?', '\U{FF01}', '!', '&', '\U{FF06}',
    '\U{FF5E}', '~', '\U{2026}', '\U{3001}', '\U{FF0F}', '/', '[', ']', '\U{FF0A}', '\U{FF38}',
    '\U{3010}', '\U{3011}', '(', ')', '\U{201C}', '\U{201D}', '\U{300C}', '\U{300D}',
    '\U{300E}', '\U{300F}', '\U{266A}', '\U{FF08}', '\U{FF09}', '\U{FF0D}', '\U{00B7}', '+', '-'
  }

  predicate IsStripped(c: char)
  {
    IsSpace(c) || c in StripPunctuation
  }

  function RemoveStripped(s: string): (r: string)
    ensures |r| <= |s|
    ensures forall i :: 0 <= i < |r| ==> !IsStripped(r[i])
  {
    if s == [] then []
    else (if IsStripped(s[0]) then [] else [s[0]]) + RemoveStripped(s[1..])
  }

  /** `stripWord`: drop spaces and the listed punctuation, then lower-case. */
  function StripWord(source: string): (r: string)
    ensures |r| <= |source|
    ensures forall i :: 0 <= i < |r| ==> !IsStripped(r[i]) && !IsUpper(r[i])
  {
    ToLower(RemoveStripped(source))
  }

  lemma {:induction false} RemoveNothing(s: string)
    requires forall i :: 0 <= i < |s| ==> !IsStripped(s[i])
    ensures RemoveStripped(s) == s
  {
    if s != [] {
      RemoveNothing(s[1..]);
    }
  }

  /** Normalising twice is normalising once. */
  lemma StripWordIdempotent(s: string)
    ensures StripWord(StripWord(s)) == StripWord(s)
  {
    var r := StripWord(s);
    RemoveNothing(r);
    assert ToLower(r) == r;
  }

  // ---------------------------------------------------------------------------
  // The tone-indexed word tables (src/dict.ts:37-41, 68-96, 138-142)

  /** `startTones[word] || …`: a curated override counts only when it is a non-empty string. */
  function Override(table: map<string, string>, word: string): (r: Option<string>)
    ensures r.Some? <==> word in table && table[word] != ""
  {
    if word in table && table[word] != "" then Some(table[word]) else None
  }

  /** Everything that decides which buckets a word belongs to: tone resolution plus the
      curated leading (`startTones`) and trailing (`endTones`) overrides. */
  datatype Resolver = Resolver(tables: ToneTables, startTones: map<string, string>, endTones: map<string, string>)
  {
    /** The boundary character: the first one, or the last one when `atEnd`. */
    function Boundary(word: string, atEnd: bool): char
      requires |word| >= 1
    {
      if atEnd then word[|word| - 1] else word[0]
    }

    /** All tones of a boundary: the loose registration. */
    function LooseTones(word: string, atEnd: bool): (r: seq<string>)
      requires |word| >= 1
      ensures |r| >= 1 && NoDup(r)
    {
      GetTone(tables, Boundary(word, atEnd))
    }

    /** The single tone of the strict registration, or None when the boundary is a
        polyphone without a curated override. */
    function StrictTone(word: string, atEnd: bool): (r: Option<string>)
      requires |word| >= 1
      ensures r.None? <==> |LooseTones(word, atEnd)| > 1 && Override(if atEnd then endTones else startTones, word).None?
      ensures r.Some? && Override(if atEnd then endTones else startTones, word).None? ==> r.value == LooseTones(word, atEnd)[0]
    {
      var tones := LooseTones(word, atEnd);
      var o := Override(if atEnd then endTones else startTones, word);
      if |tones| > 1 && o.None? then None
      else Some(if o.Some? then o.value else tones[0])
    }

    /** Whether `word` belongs under `tone` in the table for this boundary and strictness. */
    predicate Registered(word: string, tone: string, atEnd: bool, strict: bool)
      requires |word| >= 1
    {
      if strict then StrictTone(word, atEnd) == Some(tone) else tone in LooseTones(word, atEnd)
    }

    /** `Registered` as a relation between any word and a tone. */
    function Filed(atEnd: bool, strict: bool): (string, string) -> bool
    {
      (w: string, t: string) => |w| >= 1 && Registered(w, t, atEnd, strict)
    }
  }

  function Lookup(m: ToneMap, tone: string): set<string>
  {
    if tone in m then m[tone] else {}
  }

  /** Every word in `m` is a vocabulary word registered under that tone. */
  ghost predicate Sound(res: Resolver, wordMap: map<string, (string, string)>, m: ToneMap, atEnd: bool, strict: bool)
  {
    FiledIn(m, wordMap.Keys, res.Filed(atEnd, strict))
  }

  /** Every vocabulary word is in `m` under each tone it is registered under. */
  ghost predicate Complete(res: Resolver, wordMap: map<string, (string, string)>, m: ToneMap, atEnd: bool, strict: bool)
  {
    FilesAll(m, wordMap.Keys, res.Filed(atEnd, strict))
  }

  /** Every word filed in `m` is among `keys` and related to its tone by `filed`. */
  ghost predicate FiledIn(m: ToneMap, keys: set<string>, filed: (string, string) -> bool)
  {
    forall t, w :: t in m && w in m[t] ==> w in keys && filed(w, t)
  }

  /** Every word of `keys` is filed in `m` under each tone `filed` relates it to. */
  ghost predicate FilesAll(m: ToneMap, keys: set<string>, filed: (string, string) -> bool)
  {
    forall t, w :: w in keys && filed(w, t) ==> t in m && w in m[t]
  }

  /** `m` holds exactly the vocabulary words registered at this boundary, each under its tones. */
  ghost predicate Indexes(res: Resolver, wordMap: map<string, (string, string)>, m: ToneMap, atEnd: bool, strict: bool)
  {
    Sound(res, wordMap, m, atEnd, strict) && Complete(res, wordMap, m, atEnd, strict)
  }

  /** `m` with `word` added under every tone of `tones`. */
  function WithWord(m: ToneMap, word: string, tones: set<string>): ToneMap
  {
    map t | t in m.Keys + tones :: Lookup(m, t) + (if t in tones then {word} else {})
  }

  /** `addTone`: add `word` to the set under `tone`, creating the set when absent. */
  function AddTone(m: ToneMap, word: string, tone: string): (r: ToneMap)
    ensures r.Keys == m.Keys + {tone}
    ensures r[tone] == Lookup(m, tone) + {word}
    ensures forall t :: t in m && t != tone ==> r[t] == m[t]
  {
    m[tone := Lookup(m, tone) + {word}]
  }

  /** Adding under one more tone extends the registration by that tone. */
  lemma AddToneWithWord(m: ToneMap, word: string, tones: set<string>, tone: string)
    ensures AddTone(WithWord(m, word, tones), word, tone) == WithWord(m, word, tones + {tone})
  {
    var w := WithWord(m, word, tones);
    var a, b := AddTone(w, word, tone), WithWord(m, word, tones + {tone});
    assert a.Keys == b.Keys;
    forall t | t in a ensures a[t] == b[t] {
      if t == tone {
        assert a[t] == Lookup(w, t) + {word};
      } else {
        assert t in w && a[t] == w[t];
      }
    }
  }

  lemma WithNothing(m: ToneMap, word: string)
    ensures WithWord(m, word, {}) == m
  {
    var w := WithWord(m, word, {});
    assert w.Keys == m.Keys;
    forall t | t in m ensures w[t] == m[t] {
    }
  }

  /** `tones.map(tone => addTone(m, word, tone))` */
  method AddTones(m: ToneMap, word: string, tones: seq<string>) returns (r: ToneMap)
    ensures r == WithWord(m, word, ToSet(tones))
  {
    r := m;
    WithNothing(m, word);
    assert ToSet(tones[..0]) == {};
    for i := 0 to |tones|
      invariant r == WithWord(m, word, ToSet(tones[..i]))
    {
      assert ToSet(tones[..i + 1]) == ToSet(tones[..i]) + {tones[i]} by {
        assert tones[..i + 1] == tones[..i] + [tones[i]];
      }
      AddToneWithWord(m, word, ToSet(tones[..i]), tones[i]);
      r := AddTone(r, word, tones[i]);
    }
    assert tones[..|tones|] == tones;
  }

  /** The finished index as a value: read-only once the vocabulary is loaded. */
  datatype Lexicon = Lexicon(
    res: Resolver,
    wordMap: map<string, (string, string)>,
    toneStartMap: ToneMap,
    toneEndMap: ToneMap,
    toneStartStrictMap: ToneMap,
    toneEndStrictMap: ToneMap)
  {
    /** `getToneDict`: the end tables when `reverse`, the strict ones when `strict`. */
    function ToneDict(reverse: bool, strict: bool): ToneMap
    {
      if reverse then (if strict then toneEndStrictMap else toneEndMap)
      else (if strict then toneStartStrictMap else toneStartMap)
    }

    /** Every word has at least two characters and the four tables index exactly the words. */
    ghost predicate Valid()
    {
      (forall w :: w in wordMap ==> |w| >= 2) &&
      Indexes(res, wordMap, toneStartMap, false, false) &&
      Indexes(res, wordMap, toneEndMap, true, false) &&
      Indexes(res, wordMap, toneStartStrictMap, false, true) &&
      Indexes(res, wordMap, toneEndStrictMap, true, true)
    }
  }

  /** The table `getToneDict(reverse, strict)` picks is the one for the boundary the
      next word is matched on (its start, or its end in reverse play). */
  lemma ToneDictIndexes(lex: Lexicon, reverse: bool, strict: bool)
    requires lex.Valid()
    ensures Indexes(lex.res, lex.wordMap, lex.ToneDict(reverse, strict), reverse, strict)
  {
  }

  /** Every word of length two or more sits in at least one loose bucket at each boundary. */
  lemma LooseCoverage(lex: Lexicon, w: string)
    requires lex.Valid() && w in lex.wordMap
    ensures exists t :: t in lex.toneStartMap && w in lex.toneStartMap[t]
    ensures exists t :: t in lex.toneEndMap && w in lex.toneEndMap[t]
  {
    var s := lex.res.LooseTones(w, false)[0];
    var e := lex.res.LooseTones(w, true)[0];
    assert lex.res.Filed(false, false)(w, s);
    assert lex.res.Filed(true, false)(w, e);
  }

  /** One line of the unknown-tone lists: the word, then the tones of its ambiguous boundary. */
  ghost predicate Unresolved(res: Resolver, entry: seq<string>, atEnd: bool)
  {
    |entry| >= 3 && |entry[0]| >= 2 && res.StrictTone(entry[0], atEnd).None?
    && entry[1..] == res.LooseTones(entry[0], atEnd)
  }

  /** Adding a fresh word under exactly its registered tones keeps a table exact. */
  lemma SoundAdd(res: Resolver, wordMap: map<string, (string, string)>, m: ToneMap, atEnd: bool, strict: bool,
                 word: string, data: (string, string), tones: set<string>)
    requires Sound(res, wordMap, m, atEnd, strict)
    requires |word| >= 1
    requires forall t :: t in tones ==> res.Registered(word, t, atEnd, strict)
    ensures Sound(res, wordMap[word := data], WithWord(m, word, tones), atEnd, strict)
  {
    var filed := res.Filed(atEnd, strict);
    forall t | t in tones ensures filed(word, t) {
    }
    FiledAdd(m, wordMap.Keys, filed, word, tones);
    assert wordMap[word := data].Keys == wordMap.Keys + {word};
  }

  lemma FiledAdd(m: ToneMap, keys: set<string>, filed: (string, string) -> bool, word: string, tones: set<string>)
    requires FiledIn(m, keys, filed)
    requires forall t :: t in tones ==> filed(word, t)
    ensures FiledIn(WithWord(m, word, tones), keys + {word}, filed)
  {
    var m2 := WithWord(m, word, tones);
    forall t, w | t in m2 && w in m2[t]
      ensures w in keys + {word} && filed(w, t)
    {
      WithWordMember(m, word, tones, t, w);
    }
  }

  /** A word filed in `WithWord(m, word, tones)` is the added word under one of `tones`
      or was already filed in `m`. */
  lemma WithWordMember(m: ToneMap, word: string, tones: set<string>, t: string, w: string)
    requires t in WithWord(m, word, tones) && w in WithWord(m, word, tones)[t]
    ensures (w == word && t in tones) || (t in m && w in m[t])
  {
  }

  lemma CompleteAdd(res: Resolver, wordMap: map<string, (string, string)>, m: ToneMap, atEnd: bool, strict: bool,
                    word: string, data: (string, string), tones: set<string>)
    requires Complete(res, wordMap, m, atEnd, strict)
    requires |word| >= 1
    requires forall t :: res.Registered(word, t, atEnd, strict) ==> t in tones
    ensures Complete(res, wordMap[word := data], WithWord(m, word, tones), atEnd, strict)
  {
    var filed := res.Filed(atEnd, strict);
    forall t | filed(word, t) ensures t in tones {
    }
    assert wordMap[word := data].Keys == wordMap.Keys + {word};
    FilesAllAdd(m, wordMap.Keys, filed, word, tones);
  }

  lemma FilesAllAdd(m: ToneMap, keys: set<string>, filed: (string, string) -> bool, word: string, tones: set<string>)
    requires FilesAll(m, keys, filed)
    requires forall t :: filed(word, t) ==> t in tones
    ensures FilesAll(WithWord(m, word, tones), keys + {word}, filed)
  {
    var m2 := WithWord(m, word, tones);
    forall t, w | w in keys + {word} && filed(w, t)
      ensures t in m2 && w in m2[t]
    {
      if w != word {
        assert t in m && w in m[t];
      }
      assert m2[t] == Lookup(m, t) + (if t in tones then {word} else {});
    }
  }

  /** Adding a fresh word under exactly its registered tones keeps a table exact. */
  lemma IndexesAdd(res: Resolver, wordMap: map<string, (string, string)>, m: ToneMap, atEnd: bool, strict: bool,
                   word: string, data: (string, string), tones: set<string>)
    requires Indexes(res, wordMap, m, atEnd, strict)
    requires |word| >= 1
    requires forall t :: t in tones <==> res.Registered(word, t, atEnd, strict)
    ensures Indexes(res, wordMap[word := data], WithWord(m, word, tones), atEnd, strict)
  {
    SoundAdd(res, wordMap, m, atEnd, strict, word, data, tones);
    CompleteAdd(res, wordMap, m, atEnd, strict, word, data, tones);
  }

  /** What the index keeps for one boundary: the loose table, the strict table and the
      list of polyphones waiting for a curated override. */
  datatype Side = Side(loose: ToneMap, strict: ToneMap, unknown: seq<seq<string>>)

  /** One boundary of the index is exact: both tables index exactly the words, and the
      unknown list holds exactly the words whose boundary could not be registered strictly. */
  ghost predicate Exact(res: Resolver, wordMap: map<string, (string, string)>, side: Side, atEnd: bool)
  {
    Indexes(res, wordMap, side.loose, atEnd, false) &&
    Indexes(res, wordMap, side.strict, atEnd, true) &&
    ListsUnresolved(res, wordMap, side.unknown, atEnd) &&
    ListsAllUnresolved(res, wordMap, side.unknown, atEnd)
  }

  /** Every line of the unknown list is an unresolved vocabulary word. */
  ghost predicate ListsUnresolved(res: Resolver, wordMap: map<string, (string, string)>, unknown: seq<seq<string>>, atEnd: bool)
  {
    forall i :: 0 <= i < |unknown| ==> Unresolved(res, unknown[i], atEnd) && unknown[i][0] in wordMap
  }

  /** Every unresolved vocabulary word has its line in the unknown list. */
  ghost predicate ListsAllUnresolved(res: Resolver, wordMap: map<string, (string, string)>, unknown: seq<seq<string>>, atEnd: bool)
  {
    forall w :: w in wordMap && |w| >= 1 && res.StrictTone(w, atEnd).None? ==> [w] + res.LooseTones(w, atEnd) in unknown
  }

  /** A fresh word registered at one boundary: under every tone in the loose table; under
      its single tone in the strict table, or on the unknown list when it has none. */
  function Register(res: Resolver, side: Side, word: string, atEnd: bool): Side
    requires |word| >= 2
  {
    var tones := res.LooseTones(word, atEnd);
    match res.StrictTone(word, atEnd)
    case None => Side(WithWord(side.loose, word, ToSet(tones)), side.strict, side.unknown + [[word] + tones])
    case Some(tone) => Side(WithWord(side.loose, word, ToSet(tones)), AddTone(side.strict, word, tone), side.unknown)
  }

  /** One boundary of `loadTone` (src/dict.ts:82-88 for the start, 89-95 for the end). */
  method RegisterBoundary(res: Resolver, word: string, atEnd: bool, side: Side) returns (r: Side)
    requires |word| >= 2
    ensures r == Register(res, side, word, atEnd)
  {
    var tones := GetTone(res.tables, if atEnd then word[|word| - 1] else word[0]);
    var override := Override(if atEnd then res.endTones else res.startTones, word);
    var strict, unknown := side.strict, side.unknown;
    if |tones| > 1 && override.None? {
      unknown := unknown + [[word] + tones];
    } else {
      strict := AddTone(strict, word, if override.Some? then override.value else tones[0]);
    }
    var loose := AddTones(side.loose, word, tones);
    r := Side(loose, strict, unknown);
  }

  /** Registering a fresh word at a boundary keeps that boundary exact for the grown vocabulary. */
  lemma RegisterKeepsExact(res: Resolver, wordMap: map<string, (string, string)>, side: Side, atEnd: bool,
                           word: string, data: (string, string))
    requires Exact(res, wordMap, side, atEnd) && |word| >= 2
    ensures Exact(res, wordMap[word := data], Register(res, side, word, atEnd), atEnd)
  {
    var r := Register(res, side, word, atEnd);
    LooseAdd(res, wordMap, side.loose, atEnd, word, data);
    StrictAdd(res, wordMap, side.strict, atEnd, word, data, r.strict);
    ListsAdd(res, wordMap, side.unknown, atEnd, word, data, r.unknown);
  }

  /** The loose table stays exact when a word is added under all its boundary tones. */
  lemma LooseAdd(res: Resolver, wordMap: map<string, (string, string)>, loose: ToneMap, atEnd: bool,
                 word: string, data: (string, string))
    requires Indexes(res, wordMap, loose, atEnd, false) && |word| >= 2
    ensures Indexes(res, wordMap[word := data], WithWord(loose, word, ToSet(res.LooseTones(word, atEnd))), atEnd, false)
  {
    IndexesAdd(res, wordMap, loose, atEnd, false, word, data, ToSet(res.LooseTones(word, atEnd)));
  }

  /** The strict table stays exact when a word is added under its strict tone, if it has one. */
  lemma StrictAdd(res: Resolver, wordMap: map<string, (string, string)>, strict: ToneMap, atEnd: bool,
                  word: string, data: (string, string), strict': ToneMap)
    requires Indexes(res, wordMap, strict, atEnd, true) && |word| >= 2
    requires res.StrictTone(word, atEnd).None? ==> strict' == strict
    requires res.StrictTone(word, atEnd).Some? ==> strict' == AddTone(strict, word, res.StrictTone(word, atEnd).value)
    ensures Indexes(res, wordMap[word := data], strict', atEnd, true)
  {
    if res.StrictTone(word, atEnd).None? {
      StrictSkip(res, wordMap, strict, atEnd, word, data);
    } else {
      StrictPut(res, wordMap, strict, atEnd, word, data);
    }
  }

  lemma StrictSkip(res: Resolver, wordMap: map<string, (string, string)>, strict: ToneMap, atEnd: bool,
                   word: string, data: (string, string))
    requires Indexes(res, wordMap, strict, atEnd, true) && |word| >= 2
    requires res.StrictTone(word, atEnd).None?
    ensures Indexes(res, wordMap[word := data], strict, atEnd, true)
  {
    WithNothing(strict, word);
    IndexesAdd(res, wordMap, strict, atEnd, true, word, data, {});
  }

  lemma StrictPut(res: Resolver, wordMap: map<string, (string, string)>, strict: ToneMap, atEnd: bool,
                  word: string, data: (string, string))
    requires Indexes(res, wordMap, strict, atEnd, true) && |word| >= 2
    requires res.StrictTone(word, atEnd).Some?
    ensures Indexes(res, wordMap[word := data], AddTone(strict, word, res.StrictTone(word, atEnd).value), atEnd, true)
  {
    var tone := res.StrictTone(word, atEnd).value;
    SoundPut(res, wordMap, strict, atEnd, word, data, tone);
    CompletePut(res, wordMap, strict, atEnd, word, data, tone);
  }

  lemma SoundPut(res: Resolver, wordMap: map<string, (string, string)>, strict: ToneMap, atEnd: bool,
                 word: string, data: (string, string), tone: string)
    requires Sound(res, wordMap, strict, atEnd, true) && |word| >= 2
    requires res.StrictTone(word, atEnd) == Some(tone)
    ensures Sound(res, wordMap[word := data], AddTone(strict, word, tone), atEnd, true)
  {
    var m2 := AddTone(strict, word, tone);
    forall t, w | t in m2 && w in m2[t]
      ensures w in wordMap[word := data] && res.Filed(atEnd, true)(w, t)
    {
      if !(w == word && t == tone) {
        assert t in strict && w in strict[t];
      }
    }
  }

  lemma CompletePut(res: Resolver, wordMap: map<string, (string, string)>, strict: ToneMap, atEnd: bool,
                    word: string, data: (string, string), tone: string)
    requires Complete(res, wordMap, strict, atEnd, true) && |word| >= 2
    requires res.StrictTone(word, atEnd) == Some(tone)
    ensures Complete(res, wordMap[word := data], AddTone(strict, word, tone), atEnd, true)
  {
    var m2 := AddTone(strict, word, tone);
    forall t, w | w in wordMap[word := data] && |w| >= 1 && res.Registered(w, t, atEnd, true)
      ensures t in m2 && w in m2[t]
    {
      if w != word {
        assert w in wordMap;
        assert t in strict && w in strict[t];
      }
    }
  }

  /** The unknown list stays exact when a word joins the vocabulary: it gains the word's
      line exactly when the word cannot be registered strictly. */
  lemma ListsAdd(res: Resolver, wordMap: map<string, (string, string)>, unknown: seq<seq<string>>, atEnd: bool,
                 word: string, data: (string, string), unknown': seq<seq<string>>)
    requires ListsUnresolved(res, wordMap, unknown, atEnd) && ListsAllUnresolved(res, wordMap, unknown, atEnd)
    requires |word| >= 2
    requires res.StrictTone(word, atEnd).None? ==> unknown' == unknown + [[word] + res.LooseTones(word, atEnd)]
    requires res.StrictTone(word, atEnd).Some? ==> unknown' == unknown
    ensures ListsUnresolved(res, wordMap[word := data], unknown', atEnd)
    ensures ListsAllUnresolved(res, wordMap[word := data], unknown', atEnd)
  {
    var wm := wordMap[word := data];
    if res.StrictTone(word, atEnd).None? {
      assert Unresolved(res, [word] + res.LooseTones(word, atEnd), atEnd) by {
        assert ([word] + res.LooseTones(word, atEnd))[1..] == res.LooseTones(word, atEnd);
      }
    }
    forall i | 0 <= i < |unknown'| ensures Unresolved(res, unknown'[i], atEnd) && unknown'[i][0] in wm {
      if i < |unknown| { assert unknown'[i] == unknown[i]; }
    }
    forall w | w in wm && |w| >= 1 && res.StrictTone(w, atEnd).None?
      ensures [w] + res.LooseTones(w, atEnd) in unknown'
    {
      if w != word {
        assert w in wordMap;
        assert [w] + res.LooseTones(w, atEnd) in unknown;
      } else {
        assert unknown'[|unknown|] == [w] + res.LooseTones(w, atEnd);
      }
    }
  }

  /** A vocabulary with the same words keeps a boundary exact. */
  lemma ExactSameWords(res: Resolver, wordMap: map<string, (string, string)>, wordMap': map<string, (string, string)>,
                       side: Side, atEnd: bool)
    requires Exact(res, wordMap, side, atEnd) && wordMap.Keys == wordMap'.Keys
    ensures Exact(res, wordMap', side, atEnd)
  {
    IndexesSameWords(res, wordMap, wordMap', side.loose, atEnd, false);
    IndexesSameWords(res, wordMap, wordMap', side.strict, atEnd, true);
    ListsSameWords(res, wordMap, wordMap', side.unknown, atEnd);
  }

  lemma IndexesSameWords(res: Resolver, wordMap: map<string, (string, string)>, wordMap': map<string, (string, string)>,
                         m: ToneMap, atEnd: bool, strict: bool)
    requires Indexes(res, wordMap, m, atEnd, strict) && wordMap.Keys == wordMap'.Keys
    ensures Indexes(res, wordMap', m, atEnd, strict)
  {
    assert forall w :: w in wordMap' <==> w in wordMap;
  }

  lemma ListsSameWords(res: Resolver, wordMap: map<string, (string, string)>, wordMap': map<string, (string, string)>,
                       unknown: seq<seq<string>>, atEnd: bool)
    requires ListsUnresolved(res, wordMap, unknown, atEnd) && ListsAllUnresolved(res, wordMap, unknown, atEnd)
    requires wordMap.Keys == wordMap'.Keys
    ensures ListsUnresolved(res, wordMap', unknown, atEnd) && ListsAllUnresolved(res, wordMap', unknown, atEnd)
  {
    assert forall w :: w in wordMap' <==> w in wordMap;
  }

  /** The index built at start-up: `wordMap`, and for each boundary (the first character,
      `start`, and the last one, `end`) its loose table, strict table and unknown list. */
  class PhoneticIndex {
    const res: Resolver
    var wordMap: map<string, (string, string)>
    var start: Side
    var end: Side

    function Snapshot(): Lexicon
      reads this
    {
      Lexicon(res, wordMap, start.loose, end.loose, start.strict, end.strict)
    }

    /** Words have at least two characters and both boundaries are exact. */
    ghost predicate Valid()
      reads this
    {
      (forall w :: w in wordMap ==> |w| >= 2) &&
      Exact(res, wordMap, start, false) && Exact(res, wordMap, end, true)
    }

    /** The value view of a valid index is a valid lexicon. */
    lemma ValidSnapshot()
      requires Valid()
      ensures Snapshot().Valid()
    {
    }

    /** Builds `charMap` from `pinyinMap`; the vocabulary starts empty. */
    constructor (pinyinMap: PinyinTable, phonetic: PhoneticTable, startTones: map<string, string>, endTones: map<string, string>)
      ensures Valid()
      ensures Inverts(res.tables.charMap, Visits(pinyinMap)) && res.tables.phonetic == phonetic
      ensures res.startTones == startTones && res.endTones == endTones
      ensures wordMap == map[] && start == Side(map[], map[], []) && end == Side(map[], map[], [])
    {
      var charMap := BuildCharMap(pinyinMap);
      res := Resolver(ToneTables(charMap, phonetic), startTones, endTones);
      wordMap := map[];
      start, end := Side(map[], map[], []), Side(map[], map[], []);
    }

    /** `loadTone(word, source, full)`: a one-character word is ignored; a known word only
        gets new display data; a new word is registered at both boundaries. */
    method LoadTone(word: string, source: string, full: string)
      requires Valid() && word != ""
      modifies this
      ensures Valid()
      ensures |word| == 1 ==> unchanged(this)
      ensures |word| >= 2 ==> wordMap == old(wordMap)[word := (source, full)]
      ensures word in old(wordMap) ==> start == old(start) && end == old(end)
      ensures |word| >= 2 && word !in old(wordMap) ==>
        start == Register(res, old(start), word, false) && end == Register(res, old(end), word, true)
    {
      if |word| == 1 {
        return;
      }
      var oldData := word in wordMap;
      ghost var wm := wordMap;
      wordMap := wordMap[word := (source, full)];
      if oldData {
        ExactSameWords(res, wm, wordMap, start, false);
        ExactSameWords(res, wm, wordMap, end, true);
        return;
      }
      RegisterKeepsExact(res, wm, start, false, word, (source, full));
      RegisterKeepsExact(res, wm, end, true, word, (source, full));
      start := RegisterBoundary(res, word, false, start);
      end := RegisterBoundary(res, word, true, end);
    }
  }
}
