/** What a status text leaves in the flags of a device (`parse_status`). */
module UpsStatus {
  import opened Text
  import opened UpsState

  // ----- the words -----

  /** The flag a token sets, if it sets one and does nothing else to the flags. */
  function FlagOf(tok: Token): Option<Flag>
  {
    match tok
    case TokLB => Some(LOWBATT)
    case TokCAL => Some(CAL)
    case TokOFF => Some(OFF)
    case TokBYPASS => Some(BYPASS)
    case TokECO => Some(ECO)
    case TokALARM => Some(ALARM)
    case TokOVER => Some(OVER)
    case TokTRIM => Some(TRIM)
    case TokBOOST => Some(BOOST)
    case TokFSD => Some(FSD)
    case _ => None
  }

  /** Some word names `tok`, in upper or lower case. */
  predicate HasToken(words: seq<string>, tok: Token)
  {
    words != [] && (Classify(words[0]) == tok || HasToken(words[1..], tok))
  }

  /** Which of OL and OB comes last. */
  function LastLine(words: seq<string>): Option<Token>
  {
    if words == [] then None
    else
      var later := LastLine(words[1..]);
      if later.Some? then later
      else if Classify(words[0]).TokOL? || Classify(words[0]).TokOB? then Some(Classify(words[0]))
      else None
  }

  lemma TokenFlags(c: Config, s: St, tok: Token, now: int, f: Flag)
    requires f != ONLINE && f != ONBATT
    ensures f in HandleToken(c, s, tok, now).u.status <==> f in s.u.status || FlagOf(tok) == Some(f)
  {
  }

  /** Never on line and on battery at once. */
  predicate OneLine(u: Ups)
  {
    !(ONLINE in u.status && ONBATT in u.status)
  }

  lemma TokenLine(c: Config, s: St, tok: Token, now: int)
    requires OneLine(s.u)
    ensures var u := HandleToken(c, s, tok, now).u;
      && OneLine(u)
      && (ONLINE in u.status <==> tok.TokOL? || (ONLINE in s.u.status && !tok.TokOB?))
      && (ONBATT in u.status <==> tok.TokOB? || (ONBATT in s.u.status && !tok.TokOL?))
  {
  }

  lemma {:induction false} WordsFlags(c: Config, s: St, words: seq<string>, now: int, tok: Token, f: Flag)
    requires FlagOf(tok) == Some(f)
    ensures f in HandleWords(c, s, words, now).u.status <==> f in s.u.status || HasToken(words, tok)
    decreases |words|
  {
    if words != [] {
      var next := HandleToken(c, s, Classify(words[0]), now);
      TokenFlags(c, s, Classify(words[0]), now, f);
      WordsFlags(c, next.(u := UpdateCritTimer(next.u, now)), words[1..], now, tok, f);
    }
  }

  lemma {:induction false} WordsLine(c: Config, s: St, words: seq<string>, now: int)
    requires OneLine(s.u)
    ensures var u, last := HandleWords(c, s, words, now).u, LastLine(words);
      && OneLine(u)
      && (ONLINE in u.status <==> if last == None then ONLINE in s.u.status else last == Some(TokOL))
      && (ONBATT in u.status <==> if last == None then ONBATT in s.u.status else last == Some(TokOB))
    decreases |words|
  {
    if words != [] {
      var next := HandleToken(c, s, Classify(words[0]), now);
      TokenLine(c, s, Classify(words[0]), now);
      WordsLine(c, next.(u := UpdateCritTimer(next.u, now)), words[1..], now);
    }
  }

  // ----- the clearing -----

  lemma ClearedFlags(c: Config, s: St, f: Flag, g: Flag)
    requires f in CLEARED && f != LOWBATT && f != FSD
    ensures g in Cleared(c, s, f).u.status <==> g in s.u.status && g != f
  {
  }

  lemma {:induction false} ClearAllFlags(c: Config, s: St, order: seq<Flag>, status: string, g: Flag)
    requires forall i | 0 <= i < |order| :: order[i] in CLEARED && order[i] != LOWBATT && order[i] != FSD
    ensures g in ClearAll(c, s, order, status).u.status
      <==> g in s.u.status && !(g in order && !Contains(status, NameOf(g)))
    decreases |order|
  {
    if order != [] {
      ClearedFlags(c, s, order[0], g);
      ClearAllFlags(c, ClearedUnlessNamed(c, s, order[0], status), order[1..], status, g);
    }
  }

  lemma ClearingFlags(c: Config, s: St, status: string, eco: bool, f: Flag)
    requires f != ECO
    ensures f in ClearMissing(c, s, status, eco).u.status
      <==> f in s.u.status && (f in CLEARED ==> Contains(status, NameOf(f)))
  {
    var s0 := s.(u := ClearedSilently(s.u, status));
    SilentFlags(s.u, status, f);
    ClearAllFlags(c, s0, CLEAR_ORDER, status, f);
    ClearOrderIs(f);
    EcoFlags(c, ClearAll(c, s0, CLEAR_ORDER, status), status, eco, f);
  }

  lemma ClearOrderIs(f: Flag)
    ensures f in CLEAR_ORDER <==> f in CLEARED && f != LOWBATT && f != FSD
  {
  }

  lemma SilentFlags(u: Ups, status: string, f: Flag)
    ensures f in ClearedSilently(u, status).status
      <==> f in u.status && ((f == LOWBATT || f == FSD) ==> Contains(status, NameOf(f)))
  {
  }

  lemma EcoFlags(c: Config, s: St, status: string, eco: bool, f: Flag)
    requires f != ECO
    ensures f in UpdateEco(c, s, status, eco).u.status <==> f in s.u.status
  {
  }

  function TokenOf(f: Flag): Token
    requires f in CLEARED
  {
    match f
    case LOWBATT => TokLB
    case FSD => TokFSD
    case CAL => TokCAL
    case OFF => TokOFF
    case BYPASS => TokBYPASS
    case ALARM => TokALARM
    case OVER => TokOVER
    case TRIM => TokTRIM
    case _ => TokBOOST
  }

  /** The words the tests are for. */
  lemma PowerWords()
    ensures Classify("OL") == TokOL && Classify("OB") == TokOB && Classify("LB") == TokLB && Classify("RB") == TokRB
  {
    ClassifyUpper("OL");
    ClassifyUpper("OB");
    ClassifyUpper("LB");
    ClassifyUpper("RB");
  }

  lemma StateWords()
    ensures Classify("CAL") == TokCAL && Classify("OFF") == TokOFF && Classify("BYPASS") == TokBYPASS
  {
    ClassifyUpper("CAL");
    ClassifyUpper("OFF");
    ClassifyUpper("BYPASS");
  }

  lemma ModeWords()
    ensures Classify("ECO") == TokECO && Classify("FSD") == TokFSD
  {
    ClassifyUpper("ECO");
    ClassifyUpper("FSD");
  }

  lemma TroubleWords()
    ensures Classify("ALARM") == TokALARM && Classify("OVER") == TokOVER
    ensures Classify("TRIM") == TokTRIM && Classify("BOOST") == TokBOOST
  {
    ClassifyUpper("ALARM");
    ClassifyUpper("OVER");
    ClassifyUpper("TRIM");
    ClassifyUpper("BOOST");
  }

  /** The economy mode is set by its word or a buzzword, and survives a text that contains the name. */
  lemma ParsedEcoExact(c: Config, s: St, status: string, eco: bool, now: int)
    requires status != ""
    ensures ECO in ParseStatus(c, s, status, eco, now).u.status
      <==> HasToken(Split(status, ' '), TokECO) || eco || (ECO in s.u.status && Contains(status, "ECO"))
  {
    var alive := IsAlive(s, now);
    ClearingEco(c, alive, status, eco);
    WordsFlags(c, ClearMissing(c, alive, status, eco), Split(status, ' '), now, TokECO, ECO);
  }

  lemma ClearingEco(c: Config, s: St, status: string, eco: bool)
    ensures ECO in ClearMissing(c, s, status, eco).u.status
      <==> eco || (ECO in s.u.status && Contains(status, "ECO"))
  {
    var s0 := s.(u := ClearedSilently(s.u, status));
    ClearAllFlags(c, s0, CLEAR_ORDER, status, ECO);
    EcoNotCleared();
    EcoSet(c, ClearAll(c, s0, CLEAR_ORDER, status), status, eco);
  }

  lemma EcoNotCleared()
    ensures ECO !in CLEAR_ORDER
  {
  }

  lemma EcoSet(c: Config, s: St, status: string, eco: bool)
    ensures ECO in UpdateEco(c, s, status, eco).u.status
      <==> eco || (ECO in s.u.status && Contains(status, "ECO"))
  {
  }

  /** Exactly what any text leaves: a flag is set by its word in either case, and one that
      was set survives any text that contains its name in upper case. */
  lemma ParsedFlagsExact(c: Config, s: St, status: string, eco: bool, now: int, f: Flag)
    requires status != "" && f in CLEARED
    ensures f in ParseStatus(c, s, status, eco, now).u.status
      <==> HasToken(Split(status, ' '), TokenOf(f)) || (f in s.u.status && Contains(status, NameOf(f)))
  {
    var alive := IsAlive(s, now);
    ClearingFlags(c, alive, status, eco, f);
    WordsFlags(c, ClearMissing(c, alive, status, eco), Split(status, ' '), now, TokenOf(f), f);
  }

  /** And the line flags follow the last OL or OB word, or stay. */
  lemma ParsedLineExact(c: Config, s: St, status: string, eco: bool, now: int)
    requires status != "" && OneLine(s.u)
    ensures var u, last := ParseStatus(c, s, status, eco, now).u, LastLine(Split(status, ' '));
      && OneLine(u)
      && (ONLINE in u.status <==> if last == None then ONLINE in s.u.status else last == Some(TokOL))
      && (ONBATT in u.status <==> if last == None then ONBATT in s.u.status else last == Some(TokOB))
  {
    var cleared := ClearMissing(c, IsAlive(s, now), status, eco);
    ClearingFlags(c, IsAlive(s, now), status, eco, ONLINE);
    ClearingFlags(c, IsAlive(s, now), status, eco, ONBATT);
    WordsLine(c, cleared, Split(status, ' '), now);
  }

  // ----- standard texts -----

  /** The status words of the driver guide, ALARM and ECO included. */
  const STANDARD: seq<string> :=
    ["OL", "OB", "LB", "HB", "RB", "CHRG", "DISCHRG", "BYPASS", "CAL", "OFF", "OVER", "TRIM", "BOOST", "FSD",
     "ALARM", "ECO"]

  lemma {:induction false} ContainsAcross(a: string, b: string, p: string)
    requires p != "" && ' ' !in p
    ensures Contains(a + " " + b, p) <==> Contains(a, p) || Contains(b, p)
    decreases |a|
  {
    var s := a + " " + b;
    if a == "" {
      assert s[1..] == b;
      SpaceSeparates(a, b, p);
    } else {
      assert s[1..] == a[1..] + " " + b;
      ContainsAcross(a[1..], b, p);
      SpaceSeparates(a, b, p);
    }
  }

  lemma SpaceSeparates(a: string, b: string, p: string)
    requires ' ' !in p
    ensures p <= a + " " + b <==> p <= a
  {
    var s := a + " " + b;
    assert s[|a|] == ' ';
    assert forall i | 0 <= i < |a| :: s[i] == a[i];
  }

  /** Some word contains the text. */
  predicate SomeContains(words: seq<string>, p: string)
  {
    words != [] && (Contains(words[0], p) || SomeContains(words[1..], p))
  }

  lemma {:induction false} ContainsInJoin(words: seq<string>, p: string)
    requires words != [] && p != "" && ' ' !in p
    ensures Contains(Join(words, ' '), p) <==> SomeContains(words, p)
    decreases |words|
  {
    if |words| == 1 {
      assert words[1..] == [];
    } else {
      ContainsAcross(words[0], Join(words[1..], ' '), p);
      ContainsInJoin(words[1..], p);
    }
  }

  predicate OccursAt(s: string, p: string, i: nat)
  {
    i + |p| <= |s| && forall k | 0 <= k < |p| :: s[i + k] == p[k]
  }

  lemma AtTheStart(s: string, p: string)
    ensures p <= s <==> OccursAt(s, p, 0)
  {
    if OccursAt(s, p, 0) {
      assert forall k | 0 <= k < |p| :: s[0 + k] == s[k] == p[k];
    }
  }

  lemma OneFurther(s: string, p: string, i: nat)
    requires s != ""
    ensures OccursAt(s, p, i + 1) <==> OccursAt(s[1..], p, i)
  {
    if i + 1 + |p| <= |s| {
      assert forall k | 0 <= k < |p| :: (s[1..][i + k] == p[k]) == (s[i + 1 + k] == p[k]);
    }
  }

  /** Containing a text is having it at some position. */
  lemma {:induction false} ContainsMeans(s: string, p: string)
    ensures Contains(s, p) <==> exists i | 0 <= i <= |s| :: OccursAt(s, p, i)
    decreases |s|
  {
    AtTheStart(s, p);
    if s != "" {
      ContainsMeans(s[1..], p);
      if i :| 0 <= i <= |s[1..]| && OccursAt(s[1..], p, i) {
        OneFurther(s, p, i);
      }
      if i :| 0 <= i <= |s| && OccursAt(s, p, i) {
        if i > 0 { OneFurther(s, p, i - 1); }
      }
    }
  }

  predicate AllStandard(words: seq<string>)
  {
    forall i | 0 <= i < |words| :: words[i] in STANDARD
  }

  /** For a standard word, naming a flag, containing its name and being it are one thing. */
  predicate Unambiguous(w: string, f: Flag)
    requires f in CLEARED
  {
    && (Contains(w, NameOf(f)) <==> w == NameOf(f))
    && (Classify(w) == TokenOf(f) <==> w == NameOf(f))
    && ' ' !in w
  }

  /** Two characters side by side. */
  ghost predicate HasPair(s: string, x: char, y: char)
  {
    exists i | 0 <= i < |s| - 1 :: s[i] == x && s[i + 1] == y
  }

  /** A text that contains `p` has any two neighbours of `p` as neighbours, and is no shorter. */
  lemma {:induction false} ContainsPair(s: string, p: string, k: nat)
    requires k + 1 < |p| && Contains(s, p)
    ensures HasPair(s, p[k], p[k + 1]) && |p| <= |s|
    decreases |s|
  {
    if p <= s {
      assert s[k] == p[k] && s[k + 1] == p[k + 1];
    } else {
      ContainsPair(s[1..], p, k);
      var i :| 0 <= i < |s[1..]| - 1 && s[1..][i] == p[k] && s[1..][i + 1] == p[k + 1];
      assert s[i + 1] == p[k] && s[i + 1 + 1] == p[k + 1];
    }
  }

  lemma StandardCases(w: string)
    requires w in STANDARD
    ensures w == "OL" || w == "OB" || w == "LB" || w == "HB" || w == "RB" || w == "CHRG" ||
      w == "DISCHRG" || w == "BYPASS" || w == "CAL" || w == "OFF" || w == "OVER" || w == "TRIM" ||
      w == "BOOST" || w == "FSD" || w == "ALARM" || w == "ECO"
  {
  }

  /** Two neighbouring letters of each name that no other standard word has. */
  function PairOf(f: Flag): (char, char)
    requires f in CLEARED
  {
    if f == ALARM then ('A', 'R') else (NameOf(f)[0], NameOf(f)[1])
  }

  lemma PairsTellApart(w: string, f: Flag)
    requires w in STANDARD && f in CLEARED
    ensures HasPair(w, PairOf(f).0, PairOf(f).1) ==> w == NameOf(f)
  {
    StandardCases(w);
  }

  lemma StandardContains(w: string, f: Flag)
    requires w in STANDARD && f in CLEARED
    ensures Contains(w, NameOf(f)) <==> w == NameOf(f)
  {
    PairsTellApart(w, f);
    if Contains(w, NameOf(f)) {
      ContainsPair(w, NameOf(f), if f == ALARM then 2 else 0);
    }
  }

  predicate Upper(s: string)
  {
    forall i | 0 <= i < |s| :: 'A' <= s[i] <= 'Z'
  }

  lemma UpperSame(a: string, b: string)
    requires Upper(a) && Upper(b)
    ensures SameNoCase(a, b) <==> a == b
  {
    if SameNoCase(a, b) {
      assert forall i | 0 <= i < |a| :: Lower(a[i]) == Lower(b[i]) && a[i] == b[i];
    }
  }

  /** For a word in upper case the chain of tests compares the words as they are. */
  function ClassifyExact(w: string): Token
  {
    if w == "OL" then TokOL
    else if w == "OB" then TokOB
    else if w == "LB" then TokLB
    else if w == "RB" then TokRB
    else if w == "CAL" then TokCAL
    else if w == "OFF" then TokOFF
    else if w == "BYPASS" then TokBYPASS
    else if w == "ECO" then TokECO
    else if w == "ALARM" then TokALARM
    else if w == "OVER" then TokOVER
    else if w == "TRIM" then TokTRIM
    else if w == "BOOST" then TokBOOST
    else if w == "FSD" then TokFSD
    else TokOther
  }

  lemma ClassifyUpper(w: string)
    requires Upper(w)
    ensures Classify(w) == ClassifyExact(w)
  {
    UpperSame(w, "OL");
    UpperSame(w, "OB");
    UpperSame(w, "LB");
    UpperSame(w, "RB");
    UpperSame(w, "CAL");
    UpperSame(w, "OFF");
    UpperSame(w, "BYPASS");
    UpperSame(w, "ECO");
    UpperSame(w, "ALARM");
    UpperSame(w, "OVER");
    UpperSame(w, "TRIM");
    UpperSame(w, "BOOST");
    UpperSame(w, "FSD");
  }

  /** Each name is tested for before anything else could claim it. */
  lemma ExactNames(w: string, f: Flag)
    requires f in CLEARED
    ensures ClassifyExact(w) == TokenOf(f) <==> w == NameOf(f)
  {
    assert |"OL"| == |"OB"| == |"LB"| == |"RB"| == 2 && "OL"[0] == 'O' && "OB"[0] == 'O' && "LB"[0] == 'L';
    assert |"CAL"| == |"OFF"| == |"ECO"| == |"FSD"| == 3;
    assert "CAL"[0] == 'C' && "OFF"[0] == 'O' && "ECO"[0] == 'E' && "FSD"[0] == 'F';
    assert |"OVER"| == |"TRIM"| == 4 && "OVER"[0] == 'O' && "TRIM"[0] == 'T';
    assert |"ALARM"| == |"BOOST"| == 5 && "ALARM"[0] == 'A' && "BOOST"[0] == 'B';
    assert |"BYPASS"| == 6;
  }

  lemma StandardClassified(w: string, f: Flag)
    requires w in STANDARD && f in CLEARED
    ensures Classify(w) == TokenOf(f) <==> w == NameOf(f)
    ensures ' ' !in w
  {
    StandardCases(w);
    assert Upper(w);
    ClassifyUpper(w);
    ExactNames(w, f);
  }

  lemma StandardWord(w: string, f: Flag)
    requires w in STANDARD && f in CLEARED
    ensures Unambiguous(w, f)
  {
    StandardContains(w, f);
    StandardClassified(w, f);
  }

  lemma {:induction false} StandardText(words: seq<string>, f: Flag)
    requires AllStandard(words) && f in CLEARED
    ensures HasToken(words, TokenOf(f)) <==> NameOf(f) in words
    ensures SomeContains(words, NameOf(f)) <==> NameOf(f) in words
    decreases |words|
  {
    if words != [] {
      StandardWord(words[0], f);
      assert forall i | 0 <= i < |words[1..]| :: words[1..][i] == words[i + 1];
      StandardText(words[1..], f);
      HeadTail(words);
    }
  }

  lemma NameHasNoSpace(f: Flag)
    requires f in CLEARED
    ensures ' ' !in NameOf(f) && NameOf(f) != ""
  {
  }

  lemma StandardSplits(words: seq<string>)
    requires AllStandard(words) && words != []
    ensures Split(Join(words, ' '), ' ') == words
  {
    forall i | 0 <= i < |words|
      ensures ' ' !in words[i]
    {
      StandardWord(words[i], CAL);
    }
    SplitJoin(words, ' ');
  }

  lemma StandardIsNotEmpty(words: seq<string>)
    requires AllStandard(words) && words != []
    ensures Join(words, ' ') != ""
  {
    assert words[0] in STANDARD;
    assert words[0] != "";
  }

  /** Main result: whatever the device's flags were, a text of standard words leaves each
      flag set exactly when its word is there. */
  lemma {:induction false} StandardFlags(c: Config, s: St, words: seq<string>, eco: bool, now: int, f: Flag)
    requires AllStandard(words) && words != [] && f in CLEARED
    ensures f in ParseStatus(c, s, Join(words, ' '), eco, now).u.status <==> NameOf(f) in words
  {
    StandardIsNotEmpty(words);
    StandardSplits(words);
    StandardText(words, f);
    NameHasNoSpace(f);
    ContainsInJoin(words, NameOf(f));
    ParsedFlagsExact(c, s, Join(words, ' '), eco, now, f);
  }

  /** And the line flags follow the last of the words OL and OB. */
  lemma {:induction false} StandardLine(c: Config, s: St, words: seq<string>, eco: bool, now: int)
    requires AllStandard(words) && words != [] && OneLine(s.u)
    ensures var u, last := ParseStatus(c, s, Join(words, ' '), eco, now).u, LastLine(words);
      && OneLine(u)
      && (ONLINE in u.status <==> if last == None then ONLINE in s.u.status else last == Some(TokOL))
      && (ONBATT in u.status <==> if last == None then ONBATT in s.u.status else last == Some(TokOB))
  {
    StandardIsNotEmpty(words);
    StandardSplits(words);
    ParsedLineExact(c, s, Join(words, ' '), eco, now);
  }

  /** The notice that goes with setting a flag. */
  function NoticeOf(f: Flag): Notice
    requires f in CLEARED
  {
    match f
    case LOWBATT => NotifyLowBatt
    case FSD => NotifyFsd
    case CAL => NotifyCal
    case OFF => NotifyOff
    case BYPASS => NotifyBypass
    case ALARM => NotifyAlarm
    case OVER => NotifyOver
    case TRIM => NotifyTrim
    case _ => NotifyBoost
  }

  /** The upper-case standard words are where the clearing and the setting agree. A flag's word
      in any other case sets it again on every poll, with its notice, after the poll has
      cleared it: the text names the token but does not contain the name. */
  lemma LowerCaseWordIsSetAnew(c: Config, s: St, word: string, now: int, f: Flag)
    requires f in CLEARED && SameNoCase(word, NameOf(f)) && word != NameOf(f)
    ensures var cleared := ClearMissing(c, IsAlive(s, now), word, false).u;
      var parsed := ParseStatus(c, s, word, false, now).u;
      && f !in cleared.status && f in parsed.status
      && parsed.notices == cleared.notices + [NoticeOf(f)]
  {
    OtherCase(word, f);
    var cleared := ClearMissing(c, IsAlive(s, now), word, false);
    ClearingFlags(c, IsAlive(s, now), word, false, f);
    ParsedFlagsExact(c, s, word, false, now, f);
    OneWord(c, cleared, word, now);
    if f == FSD {
      ClearingForgetsFsd(c, IsAlive(s, now), word, false);
    }
    TokenOfFlagTells(c, cleared, f, now);
  }

  lemma TokenOfFlagTells(c: Config, s: St, f: Flag, now: int)
    requires f in CLEARED && f !in s.u.status && (f == FSD ==> s.u.lastfsdnotify == 0)
    ensures HandleToken(c, s, TokenOf(f), now).u.notices == s.u.notices + [NoticeOf(f)]
  {
  }

  lemma {:induction false} ClearAllKeepsFsdTime(c: Config, s: St, order: seq<Flag>, status: string)
    requires forall i | 0 <= i < |order| :: order[i] in CLEARED
    ensures ClearAll(c, s, order, status).u.lastfsdnotify == s.u.lastfsdnotify
    decreases |order|
  {
    if order != [] {
      ClearAllKeepsFsdTime(c, ClearedUnlessNamed(c, s, order[0], status), order[1..], status);
    }
  }

  lemma ClearingForgetsFsd(c: Config, s: St, status: string, eco: bool)
    requires !Contains(status, "FSD")
    ensures ClearMissing(c, s, status, eco).u.lastfsdnotify == 0
  {
    var s0 := s.(u := ClearedSilently(s.u, status));
    ClearAllKeepsFsdTime(c, s0, CLEAR_ORDER, status);
    assert ClearAll(c, s0, CLEAR_ORDER, status).u.lastfsdnotify == 0;
  }

  /** The notice that goes with clearing a flag, where there is one. */
  function EndNoticeOf(f: Flag): Notice
    requires f in CLEARED && f != LOWBATT && f != FSD
  {
    match f
    case CAL => NotifyNotCal
    case OFF => NotifyNotOff
    case BYPASS => NotifyNotBypass
    case ALARM => NotifyNotAlarm
    case OVER => NotifyNotOver
    case TRIM => NotifyNotTrim
    case _ => NotifyNotBoost
  }

  lemma {:induction false} ClearAllTells(c: Config, s: St, order: seq<Flag>, status: string, f: Flag)
    requires forall i | 0 <= i < |order| :: order[i] in CLEARED && order[i] != LOWBATT && order[i] != FSD
    requires f in CLEARED && f != LOWBATT && f != FSD
    requires forall i, j | 0 <= i < j < |order| :: order[i] != order[j]
    ensures var u := ClearAll(c, s, order, status).u;
      TimesTold(u.notices, EndNoticeOf(f)) == TimesTold(s.u.notices, EndNoticeOf(f)) +
        if f in order && f in s.u.status && !Contains(status, NameOf(f)) then 1 else 0
    decreases |order|
  {
    if order != [] {
      var next := ClearedUnlessNamed(c, s, order[0], status);
      ClearedTells(c, s, order[0], status, f);
      ClearedFlags(c, s, order[0], f);
      HeadTail(order);
      assert order[0] !in order[1..];
      ClearAllTells(c, next, order[1..], status, f);
    }
  }

  lemma ClearedTells(c: Config, s: St, g: Flag, status: string, f: Flag)
    requires g in CLEARED && g != LOWBATT && g != FSD && f in CLEARED && f != LOWBATT && f != FSD
    ensures TimesTold(ClearedUnlessNamed(c, s, g, status).u.notices, EndNoticeOf(f))
      == TimesTold(s.u.notices, EndNoticeOf(f)) +
         if f == g && f in s.u.status && !Contains(status, NameOf(f)) then 1 else 0
  {
    ClearedLog(c, s, g);
    ToldMore(s.u.notices, EndNoticeOf(g), EndNoticeOf(f));
    EndNoticesDiffer(f, g);
  }

  lemma EndNoticesDiffer(f: Flag, g: Flag)
    requires f in CLEARED && f != LOWBATT && f != FSD && g in CLEARED && g != LOWBATT && g != FSD
    ensures EndNoticeOf(f) == EndNoticeOf(g) <==> f == g
  {
  }

  lemma ClearedLog(c: Config, s: St, g: Flag)
    requires g in CLEARED && g != LOWBATT && g != FSD
    ensures Cleared(c, s, g).u.notices == if g in s.u.status then s.u.notices + [EndNoticeOf(g)] else s.u.notices
  {
  }

  /** How often something was notified. */
  function TimesTold(log: seq<Notice>, n: Notice): nat
  {
    if log == [] then 0 else TimesTold(log[..|log| - 1], n) + if log[|log| - 1] == n then 1 else 0
  }

  lemma ToldMore(log: seq<Notice>, m: Notice, n: Notice)
    ensures TimesTold(log + [m], n) == TimesTold(log, n) + if m == n then 1 else 0
  {
    assert (log + [m])[..|log|] == log;
  }

  /** Whatever is cleared with a notice is notified once, and nothing else is. */
  lemma ClearingTells(c: Config, s: St, status: string, eco: bool, f: Flag)
    requires f in CLEARED && f != LOWBATT && f != FSD
    ensures TimesTold(ClearMissing(c, s, status, eco).u.notices, EndNoticeOf(f))
      == TimesTold(s.u.notices, EndNoticeOf(f)) + if f in s.u.status && !Contains(status, NameOf(f)) then 1 else 0
  {
    var s0 := s.(u := ClearedSilently(s.u, status));
    SilentFlags(s.u, status, f);
    ClearAllTells(c, s0, CLEAR_ORDER, status, f);
    ClearOrderIs(f);
    EcoTells(c, ClearAll(c, s0, CLEAR_ORDER, status), status, eco, f);
  }

  lemma EcoTells(c: Config, s: St, status: string, eco: bool, f: Flag)
    requires f in CLEARED && f != LOWBATT && f != FSD
    ensures TimesTold(UpdateEco(c, s, status, eco).u.notices, EndNoticeOf(f)) == TimesTold(s.u.notices, EndNoticeOf(f))
  {
    ToldMore(s.u.notices, NotifyEco, EndNoticeOf(f));
    ToldMore(s.u.notices, NotifyNotEco, EndNoticeOf(f));
  }

  lemma OneWord(c: Config, s: St, word: string, now: int)
    ensures HandleWords(c, s, [word], now).u.notices == HandleToken(c, s, Classify(word), now).u.notices
  {
    var next := HandleToken(c, s, Classify(word), now);
    var timed := next.(u := UpdateCritTimer(next.u, now));
    assert [word][1..] == [];
    assert HandleWords(c, timed, [], now) == timed;
  }

  lemma SameCases(a: string, b: string, x: string)
    requires SameNoCase(a, b)
    ensures SameNoCase(a, x) <==> SameNoCase(b, x)
  {
  }

  lemma ClassifySame(a: string, b: string)
    requires SameNoCase(a, b)
    ensures Classify(a) == Classify(b)
  {
    SameCases(a, b, "OL");
    SameCases(a, b, "OB");
    SameCases(a, b, "LB");
    SameCases(a, b, "RB");
    SameCases(a, b, "CAL");
    SameCases(a, b, "OFF");
    SameCases(a, b, "BYPASS");
    SameCases(a, b, "ECO");
    SameCases(a, b, "ALARM");
    SameCases(a, b, "OVER");
    SameCases(a, b, "TRIM");
    SameCases(a, b, "BOOST");
    SameCases(a, b, "FSD");
  }

  lemma NameIsUpper(f: Flag)
    requires f in CLEARED
    ensures Upper(NameOf(f)) && |NameOf(f)| >= 2 && Classify(NameOf(f)) == TokenOf(f)
  {
    ClassifyUpper(NameOf(f));
    ExactNames(NameOf(f), f);
  }

  lemma NoSpaceInOtherCase(word: string, name: string)
    requires Upper(name) && SameNoCase(word, name)
    ensures ' ' !in word
  {
    forall i | 0 <= i < |word|
      ensures word[i] != ' '
    {
      assert Lower(word[i]) == Lower(name[i]);
    }
  }

  lemma OtherCase(word: string, f: Flag)
    requires f in CLEARED && SameNoCase(word, NameOf(f)) && word != NameOf(f)
    ensures word != "" && !Contains(word, NameOf(f))
    ensures Split(word, ' ') == [word] && Classify(word) == TokenOf(f)
    ensures HasToken(Split(word, ' '), TokenOf(f))
  {
    var name := NameOf(f);
    NameIsUpper(f);
    ClassifySame(word, name);
    NoSpaceInOtherCase(word, name);
    IndexOfAbsent(word, ' ');
    if Contains(word, name) {
      assert name <= word || Contains(word[1..], name);
      if !(name <= word) {
        ContainsPair(word[1..], name, 0);
      }
    }
  }

  /** And a flag survives a text that only contains its name inside another word. */
  lemma {:induction false} NameInsideOtherWordKeepsFlag(c: Config, s: St, now: int)
    requires OVER in s.u.status
    ensures OVER in ParseStatus(c, s, "OL OVERHEAT", false, now).u.status
  {
    OverInsideOtherWord();
    ParsedFlagsExact(c, s, "OL OVERHEAT", false, now, OVER);
  }

  lemma OverInsideOtherWord()
    ensures Contains("OL OVERHEAT", NameOf(OVER))
  {
    var text := "OL OVERHEAT";
    assert text[1..][1..][1..] == "OVERHEAT";
    assert "OVER" <= "OVERHEAT";
  }
}
