// The chat's task-intent pattern, matched by hand with the semantics of a
// JavaScript regular expression (leftmost match, alternatives in order,
// greedy `\s+` that backtracks, lazy `(.+?)`, optional trailing group):
//
//   (?:сделать|выполнить|запланировать|нужно|хочу|надо)\s+(.+?)(?:\s+в\s+(\d{1,2}:\d{2}))?   flag i
//
// Because `(.+?)` is lazy and everything after it is optional with no end
// anchor, the engine accepts as soon as `(.+?)` holds ONE character: group 1
// is always exactly one character. Group 2 is captured only when that single
// character is immediately followed by `\s+в\s+H:MM` or `\s+в\s+HH:MM`.

module Intent {
  import opened Options
  import opened Text

  /** The lead verbs, in the order the alternation tries them. */
  const Keywords: seq<string> := ["сделать", "выполнить", "запланировать", "нужно", "хочу", "надо"]

  /** What a match yields: group 1, and group 2 when it took part. */
  datatype Intent = Intent(title: string, time: Option<string>)

  /** Case canonicalisation of the `i` flag, for a–z and U+0430–U+045F only:
      a character is compared by its upper-case form. */
  function Canon(c: char): char {
    if 'a' <= c <= 'z' then (c as int - 32) as char
    else if 'а' <= c <= 'я' then (c as int - 32) as char
    else if 'ѐ' <= c <= 'џ' then (c as int - 80) as char
    else c
  }

  /** `w` occurs at position `i` of `s`, ignoring case. */
  predicate WordAt(s: string, i: int, w: string) {
    0 <= i && i + |w| <= |s| && forall k :: 0 <= k < |w| ==> Canon(s[i + k]) == Canon(w[k])
  }

  /** `H:MM` or `HH:MM`. */
  predicate IsClock(t: string) {
    (|t| == 4 && IsDigit(t[0]) && t[1] == ':' && IsDigit(t[2]) && IsDigit(t[3]))
    || (|t| == 5 && IsDigit(t[0]) && IsDigit(t[1]) && t[2] == ':' && IsDigit(t[3]) && IsDigit(t[4]))
  }

  /** Where the greedy `\s+` starting at `j` stops: the first non-space at or after `j`. */
  function SkipSpaces(s: string, j: nat): (e: nat)
    requires j <= |s|
    ensures j <= e <= |s|
    ensures forall q :: j <= q < e ==> IsSpace(s[q])
    ensures e == |s| || !IsSpace(s[e])
    decreases |s| - j
  {
    if j < |s| && IsSpace(s[j]) then SkipSpaces(s, j + 1) else j
  }

  /** Backtracking of `\s+` before `.`: the spaces run over (j, p) and `.`
      is tried at p, for p = top, top - 1, .., j + 1 in that order. */
  function DotFrom(s: string, j: nat, top: nat): (r: Option<nat>)
    requires j < top <= |s|
    ensures r.Some? ==> j < r.value <= top && r.value < |s| && !IsLineTerminator(s[r.value])
    ensures r.Some? ==> forall q :: r.value < q <= top && q < |s| ==> IsLineTerminator(s[q])
    ensures r.None? ==> forall q :: j < q <= top && q < |s| ==> IsLineTerminator(s[q])
    decreases top
  {
    if top < |s| && !IsLineTerminator(s[top]) then Some(top)
    else if top - 1 > j then DotFrom(s, j, top - 1)
    else None
  }

  /** `\s+(.+?)` after a keyword ending at `j`: the position of the single
      character group 1 takes, if any. */
  function TitleAt(s: string, j: nat): (r: Option<nat>)
    requires j <= |s|
    ensures r.Some? ==> j < r.value < |s| && !IsLineTerminator(s[r.value])
                        && forall q :: j <= q < r.value ==> IsSpace(s[q])
    ensures r.Some? ==> r.value <= SkipSpaces(s, j)
                        && forall q :: r.value < q <= SkipSpaces(s, j) && q < |s| ==> IsLineTerminator(s[q])
  {
    var e := SkipSpaces(s, j);
    if e == j then None else DotFrom(s, j, e)
  }

  /** TitleAt finds nothing only when no run of spaces from `j` leads to a
      character other than a line terminator. */
  lemma TitleAtNone(s: string, j: nat)
    requires j <= |s| && TitleAt(s, j).None?
    ensures forall p :: j < p < |s| && !IsLineTerminator(s[p]) ==> exists q :: j <= q < p && !IsSpace(s[q])
  {
    var e := SkipSpaces(s, j);
    forall p | j < p < |s| && !IsLineTerminator(s[p]) ensures exists q :: j <= q < p && !IsSpace(s[q]) {
      assert e == j;
      assert !IsSpace(s[j]);
    }
  }

  /** The clock text `t` stands at position `k` of `s`. */
  predicate ClockTextAt(s: string, k: int, t: string) {
    IsClock(t) && 0 <= k && k + |t| <= |s| && s[k..k + |t|] == t
  }

  /** `\d{1,2}:\d{2}` at `k`: two digits are tried before one. */
  function ClockAt(s: string, k: nat): (r: Option<string>)
    requires k <= |s|
    ensures r.Some? ==> ClockTextAt(s, k, r.value)
  {
    if k + 5 <= |s| && IsDigit(s[k]) && IsDigit(s[k + 1]) && s[k + 2] == ':' && IsDigit(s[k + 3]) && IsDigit(s[k + 4])
    then Some(s[k..k + 5])
    else if k + 4 <= |s| && IsDigit(s[k]) && s[k + 1] == ':' && IsDigit(s[k + 2]) && IsDigit(s[k + 3])
    then Some(s[k..k + 4])
    else None
  }

  /** The two clock forms exclude each other (the second character is a
      digit in one and `:` in the other), so ClockAt finds the clock text at
      `k` whenever there is one, and it is the only one. */
  lemma ClockAtSpec(s: string, k: nat)
    requires k <= |s|
    ensures ClockAt(s, k).Some? ==> ClockTextAt(s, k, ClockAt(s, k).value)
    ensures forall t :: ClockTextAt(s, k, t) ==> ClockAt(s, k) == Some(t)
  {
    forall t | ClockTextAt(s, k, t) ensures ClockAt(s, k) == Some(t) {
      assert s[k] == t[0] && s[k + 1] == t[1] && s[k + 2] == t[2] && s[k + 3] == t[3];
      if |t| == 5 {
        assert s[k + 4] == t[4];
      }
    }
  }

  /** The optional group `(?:\s+в\s+(\d{1,2}:\d{2}))?` at `q`: group 2 when
      it takes part. Shortening either `\s+` only puts a space where `в` or a
      digit is needed, so the greedy runs are the only candidates. */
  function TimeAt(s: string, q: nat): (r: Option<string>)
    requires q <= |s|
    ensures r.Some? ==> IsClock(r.value)
  {
    var e1 := SkipSpaces(s, q);
    if e1 == q || e1 == |s| || Canon(s[e1]) != Canon('в') then None
    else
      var e2 := SkipSpaces(s, e1 + 1);
      if e2 == e1 + 1 then None else ClockAt(s, e2)
  }

  /** The optional group read declaratively: spaces over [q, a), a letter
      `в` in either case at `a`, spaces over (a, b), at least one of each,
      and the clock text `t` at `b`. */
  predicate TimeGroupAt(s: string, q: int, a: int, b: int, t: string) {
    0 <= q < a < |s| && a + 1 < b < |s|
    && (forall x :: q <= x < a ==> IsSpace(s[x]))
    && Canon(s[a]) == Canon('в')
    && (forall x :: a < x < b ==> IsSpace(s[x]))
    && ClockTextAt(s, b, t)
  }

  /** The optional group right after group 1's character at `d`. */
  predicate TimeGroupAfter(s: string, d: int, a: int, b: int, t: string) {
    TimeGroupAt(s, d + 1, a, b, t)
  }

  /** TimeAt yields group 2 exactly when the optional group can match, and
      then yields the one clock text it can match. */
  lemma TimeAtSpec(s: string, q: nat)
    requires q <= |s|
    ensures TimeAt(s, q).Some? ==> exists a, b :: TimeGroupAt(s, q, a, b, TimeAt(s, q).value)
    ensures forall a, b, t :: TimeGroupAt(s, q, a, b, t) ==> TimeAt(s, q) == Some(t)
  {
    var e1 := SkipSpaces(s, q);
    if TimeAt(s, q).Some? {
      var e2 := SkipSpaces(s, e1 + 1);
      assert TimeGroupAt(s, q, e1, e2, TimeAt(s, q).value);
    }
    forall a, b, t | TimeGroupAt(s, q, a, b, t) ensures TimeAt(s, q) == Some(t) {
      VeIsNoSpace(s[a]);
      assert a == e1;
      var e2 := SkipSpaces(s, e1 + 1);
      assert IsDigit(t[0]) && s[b] == t[0];
      assert b == e2;
      ClockAtSpec(s, e2);
    }
  }

  /** The letter `в`, in either case, is not whitespace. */
  lemma VeIsNoSpace(c: char)
    requires Canon(c) == Canon('в')
    ensures !IsSpace(c)
  {
  }

  /** The declarative reading of `keyword\s+.`: keyword number `k` at `i`,
      then at least one space up to `p`, and a non-line-terminator at `p`. */
  predicate IntentAt(s: string, i: int, k: int, p: int) {
    0 <= k < |Keywords| && WordAt(s, i, Keywords[k])
    && i + |Keywords[k]| < p < |s| && !IsLineTerminator(s[p])
    && forall q :: i + |Keywords[k]| <= q < p ==> IsSpace(s[q])
  }

  /** Where a match was found: its start, which keyword matched, and the
      position of the character group 1 took. */
  datatype Found = Found(start: nat, keyword: nat, dot: nat)

  /** The alternation at position `i`, trying keywords `k`, `k + 1`, .. in order. */
  function AltAt(s: string, i: nat, k: nat): (r: Option<Found>)
    requires i <= |s| && k <= |Keywords|
    ensures r.Some? ==> r.value.start == i && k <= r.value.keyword && IntentAt(s, i, r.value.keyword, r.value.dot)
    ensures r.None? ==> forall k', p :: k <= k' ==> !IntentAt(s, i, k', p)
    decreases |Keywords| - k
  {
    if k == |Keywords| then None
    else
      var w := Keywords[k];
      if WordAt(s, i, w) && TitleAt(s, i + |w|).Some? then
        Some(Found(i, k, TitleAt(s, i + |w|).value))
      else
        NoIntentHere(s, i, k);
        AltAt(s, i, k + 1)
  }

  /** AltAt takes the first keyword, from `k` on, that matches at `i`: no
      earlier one matches there with any character for group 1. */
  lemma {:induction false} AltAtFirst(s: string, i: nat, k: nat, f: Found)
    requires i <= |s| && k <= |Keywords| && AltAt(s, i, k) == Some(f)
    ensures forall k', p :: k <= k' < f.keyword ==> !IntentAt(s, i, k', p)
    decreases |Keywords| - k
  {
    if f.keyword != k {
      AltAtStep(s, i, k, f);
      AltAtFirst(s, i, k + 1, f);
      EarlierFail(s, i, k, f.keyword);
    }
  }

  /** When AltAt settles on a later keyword, keyword `k` matched nowhere and
      the search went on from `k + 1`. */
  lemma AltAtStep(s: string, i: nat, k: nat, f: Found)
    requires i <= |s| && k <= |Keywords| && AltAt(s, i, k) == Some(f) && f.keyword != k
    ensures k < |Keywords| && AltAt(s, i, k + 1) == Some(f) && forall p :: !IntentAt(s, i, k, p)
  {
    NoIntentHere(s, i, k);
  }

  /** Failing keyword `k` joins the keywords after it that fail. */
  lemma EarlierFail(s: string, i: nat, k: nat, last: nat)
    requires forall p :: !IntentAt(s, i, k, p)
    requires forall k', p :: k + 1 <= k' < last ==> !IntentAt(s, i, k', p)
    ensures forall k', p :: k <= k' < last ==> !IntentAt(s, i, k', p)
  {
    forall k', p | k <= k' < last ensures !IntentAt(s, i, k', p) {
      if k' != k {
        assert k + 1 <= k' < last;
      }
    }
  }

  /** Group 1 sits at the last place the greedy `\s+` after the keyword
      offers it: every later position up to where the spaces end is a line
      terminator. */
  lemma {:induction false} AltAtLast(s: string, i: nat, k: nat, f: Found)
    requires i <= |s| && k <= |Keywords| && AltAt(s, i, k) == Some(f)
    ensures f.keyword < |Keywords| && i + |Keywords[f.keyword]| <= |s|
            && forall q :: f.dot < q <= SkipSpaces(s, i + |Keywords[f.keyword]|) && q < |s| ==> IsLineTerminator(s[q])
    decreases |Keywords| - k
  {
    if f.keyword != k {
      AltAtStep(s, i, k, f);
      AltAtLast(s, i, k + 1, f);
    } else {
      AltAtHere(s, i, k, f);
    }
  }

  /** When AltAt settles on keyword `k` itself, group 1 is where TitleAt puts it. */
  lemma AltAtHere(s: string, i: nat, k: nat, f: Found)
    requires i <= |s| && k <= |Keywords| && AltAt(s, i, k) == Some(f) && f.keyword == k
    ensures k < |Keywords| && i + |Keywords[k]| <= |s| && TitleAt(s, i + |Keywords[k]|) == Some(f.dot)
    ensures forall q :: f.dot < q <= SkipSpaces(s, i + |Keywords[k]|) && q < |s| ==> IsLineTerminator(s[q])
  {
  }

  lemma NoIntentHere(s: string, i: nat, k: nat)
    requires i <= |s| && k < |Keywords|
    requires !WordAt(s, i, Keywords[k]) || TitleAt(s, i + |Keywords[k]|).None?
    ensures forall p :: !IntentAt(s, i, k, p)
  {
    if WordAt(s, i, Keywords[k]) {
      TitleAtNone(s, i + |Keywords[k]|);
    }
  }

  /** No match of the pattern starts in [lo, hi). */
  ghost predicate NoIntentBetween(s: string, lo: int, hi: int) {
    forall i', k, p :: lo <= i' < hi ==> !IntentAt(s, i', k, p)
  }

  /** The leftmost match at or after position `i`. */
  function MatchFrom(s: string, i: nat): (r: Option<Found>)
    requires i <= |s|
    ensures r.Some? ==> i <= r.value.start && IntentAt(s, r.value.start, r.value.keyword, r.value.dot)
    decreases |s| - i
  {
    var here := AltAt(s, i, 0);
    if here.Some? || i == |s| then here else MatchFrom(s, i + 1)
  }

  /** What MatchFrom reports is the first alternative's result at its start. */
  lemma {:induction false} MatchFromIsAltAt(s: string, i: nat)
    requires i <= |s| && MatchFrom(s, i).Some?
    ensures MatchFrom(s, i).value.start <= |s| && AltAt(s, MatchFrom(s, i).value.start, 0) == MatchFrom(s, i)
    decreases |s| - i
  {
    if AltAt(s, i, 0).None? {
      MatchFromIsAltAt(s, i + 1);
    }
  }

  /** MatchFrom finds the leftmost match, and finds one whenever there is one. */
  lemma {:induction false} MatchFromIsLeftmost(s: string, i: nat)
    requires i <= |s|
    ensures MatchFrom(s, i).Some? ==> NoIntentBetween(s, i, MatchFrom(s, i).value.start)
    ensures MatchFrom(s, i).None? ==> NoIntentBetween(s, i, |s| + 1)
    decreases |s| - i
  {
    var here := AltAt(s, i, 0);
    if here.None? {
      assert NoIntentBetween(s, i, i + 1);
      if i == |s| {
        NoIntentAtEnd(s);
      } else {
        MatchFromIsLeftmost(s, i + 1);
      }
    }
  }

  /** No keyword fits at the very end of the text. */
  lemma NoIntentAtEnd(s: string)
    ensures NoIntentBetween(s, |s|, |s| + 1)
  {
  }

  /** The match the engine reports, read declaratively: no match starts
      earlier, no earlier alternative matches at its start, and `.` stands
      at the last place the backtracking `\s+` offers it. */
  ghost predicate Chosen(s: string, f: Found) {
    IntentAt(s, f.start, f.keyword, f.dot)
    && NoIntentBetween(s, 0, f.start)
    && (forall k, p :: 0 <= k < f.keyword ==> !IntentAt(s, f.start, k, p))
    && (forall q :: f.dot < q <= SkipSpaces(s, f.start + |Keywords[f.keyword]|) && q < |s| ==> IsLineTerminator(s[q]))
  }

  /** At most one match satisfies Chosen: the declarative reading pins down
      the start, the alternative and the character of group 1. */
  lemma ChosenUnique(s: string, f: Found, g: Found)
    requires Chosen(s, f) && Chosen(s, g)
    ensures f == g
  {
    assert f.start == g.start;
    assert f.keyword == g.keyword;
    var e := SkipSpaces(s, f.start + |Keywords[f.keyword]|);
    assert f.dot <= e && g.dot <= e;
  }

  /** The capture groups of a match found at `f`: the character at the dot,
      and the optional time right after it. */
  function Groups(s: string, f: Found): Intent
    requires f.dot < |s|
  {
    Intent([s[f.dot]], TimeAt(s, f.dot + 1))
  }

  /** `inputMessage.match(...)`: null, or groups 1 and 2 of the leftmost match. */
  function Match(s: string): (r: Option<Intent>)
    ensures r.Some? <==> MatchFrom(s, 0).Some?
  {
    match MatchFrom(s, 0)
    case None => None
    case Some(f) => Some(Groups(s, f))
  }

  // ---------------------------------------------------------------------------
  // What a match can and cannot be

  /** The pattern matches exactly when some lead verb is followed by at
      least one space and then a character other than a line terminator;
      and the match reported is the leftmost such verb. */
  lemma MatchIffKeywordThenText(s: string)
    ensures Match(s).Some? <==> exists i, k, p :: IntentAt(s, i, k, p)
    ensures MatchFrom(s, 0).Some? ==> NoIntentBetween(s, 0, MatchFrom(s, 0).value.start)
  {
    MatchFromIsLeftmost(s, 0);
    var f := MatchFrom(s, 0);
    if f.Some? {
      assert IntentAt(s, f.value.start, f.value.keyword, f.value.dot);
    }
  }

  /** Group 1 is always a single character, never empty, so the
      `|| inputMessage` fallback of the caller is never taken; it is a
      character of the message other than a line terminator. Group 2, when
      present, is a clock text `H:MM` or `HH:MM`. */
  lemma MatchShape(s: string)
    requires Match(s).Some?
    ensures |Match(s).value.title| == 1
    ensures Match(s).value.title[0] in s && !IsLineTerminator(Match(s).value.title[0])
    ensures Match(s).value.time.Some? ==> IsClock(Match(s).value.time.value)
  {
    var f := MatchFrom(s, 0).value;
    assert IntentAt(s, f.start, f.keyword, f.dot);
  }

  /** Group 1 read declaratively: the character at the dot of the match
      Chosen describes. */
  lemma MatchTitle(s: string)
    requires Match(s).Some?
    ensures Chosen(s, MatchFrom(s, 0).value) && Match(s).value.title == [s[MatchFrom(s, 0).value.dot]]
  {
    MatchIsChosen(s);
  }

  /** Group 2 read declaratively: present exactly when the optional
      ` в HH:MM` group can match right after group 1, and then holding the
      one clock text that group matches. */
  lemma MatchTime(s: string, f: Found)
    requires MatchFrom(s, 0) == Some(f)
    ensures Match(s).value.time.Some? ==> exists a, b :: TimeGroupAfter(s, f.dot, a, b, Match(s).value.time.value)
    ensures forall a, b, t :: TimeGroupAfter(s, f.dot, a, b, t) ==> Match(s).value.time == Some(t)
  {
    MatchAt(s, f);
    GroupTwoFound(s, f);
    GroupTwoOnly(s, f);
  }

  /** The groups of a match, from where MatchFrom found it. */
  lemma MatchAt(s: string, f: Found)
    requires MatchFrom(s, 0) == Some(f)
    ensures f.dot < |s| && Match(s) == Some(Groups(s, f))
  {
  }

  /** A time in the groups is one the optional group matches after the dot. */
  lemma GroupTwoFound(s: string, f: Found)
    requires f.dot < |s|
    ensures Groups(s, f).time.Some? ==> exists a, b :: TimeGroupAfter(s, f.dot, a, b, Groups(s, f).time.value)
  {
    var time := TimeAt(s, f.dot + 1);
    TimeAtSpec(s, f.dot + 1);
    if time.Some? {
      var a, b :| TimeGroupAt(s, f.dot + 1, a, b, time.value);
      assert TimeGroupAfter(s, f.dot, a, b, time.value);
    }
  }

  /** Whatever the optional group can match after the dot is the time in the groups. */
  lemma GroupTwoOnly(s: string, f: Found)
    requires f.dot < |s|
    ensures forall a, b, t :: TimeGroupAfter(s, f.dot, a, b, t) ==> Groups(s, f).time == Some(t)
  {
    TimeAtSpec(s, f.dot + 1);
  }

  /** The match MatchFrom reports is the one Chosen describes. */
  lemma MatchIsChosen(s: string)
    requires MatchFrom(s, 0).Some?
    ensures Chosen(s, MatchFrom(s, 0).value)
  {
    MatchFromIsLeftmost(s, 0);
    MatchFromIsAltAt(s, 0);
    AltAtFirst(s, MatchFrom(s, 0).value.start, 0, MatchFrom(s, 0).value);
    AltAtLast(s, MatchFrom(s, 0).value.start, 0, MatchFrom(s, 0).value);
  }

  // ---------------------------------------------------------------------------
  // Worked inputs

  lemma KeywordFacts()
    ensures |Keywords| == 6
    ensures forall k :: 0 <= k < 6 ==> |Keywords[k]| >= 4
    ensures Keywords[0][0] == 'с' && Keywords[1][0] == 'в' && Keywords[2][0] == 'з'
    ensures Keywords[3][0] == 'н' && Keywords[4][0] == 'х' && Keywords[5][0] == 'н'
    ensures |Keywords[3]| == 5 && |Keywords[5]| == 4 && Keywords[3][1] == 'у'
  {
  }

  /** A single space then a non-space: group 1 is the non-space. */
  lemma TitleAfterOneSpace(s: string, j: nat)
    requires j + 1 < |s| && IsSpace(s[j]) && !IsSpace(s[j + 1])
    ensures TitleAt(s, j) == Some(j + 1)
  {
    assert SkipSpaces(s, j + 1) == j + 1;
  }

  /** One space, "в", one space: group 2 is whatever clock text follows. */
  lemma TimeAfterOneSpaceEachSide(s: string, q: nat)
    requires q + 3 < |s| && IsSpace(s[q]) && s[q + 1] == 'в' && IsSpace(s[q + 2]) && !IsSpace(s[q + 3])
    ensures TimeAt(s, q) == ClockAt(s, q + 3)
  {
    assert SkipSpaces(s, q + 1) == q + 1;
    assert SkipSpaces(s, q + 3) == q + 3;
  }

  /** Group 2 cannot start at a non-space. */
  lemma NoTimeAtText(s: string, q: nat)
    requires q < |s| && !IsSpace(s[q])
    ensures TimeAt(s, q) == None
  {
  }

  /** Any text opening with "нужно сд": the leftmost verb is "нужно"; the
      lazy group stops after "с", which is followed by "д", not by " в ..",
      so the title is "с" and there is no time, whatever follows. */
  lemma MatchAfterNuzhnoS(s: string)
    requires 8 <= |s| && s[..8] == "нужно сд"
    ensures Match(s) == Some(Intent("с", None))
  {
    assert s[0] == 'н' && s[1] == 'у' && s[2] == 'ж' && s[3] == 'н' && s[4] == 'о';
    assert s[5] == ' ' && s[6] == 'с' && s[7] == 'д';
    KeywordFacts();
    assert WordAt(s, 0, Keywords[3]);
    TitleAfterOneSpace(s, 5);
    NoTimeAtText(s, 7);
    assert Canon('н') != Canon('с') && Canon('н') != Canon('в') && Canon('н') != Canon('з');
    assert AltAt(s, 0, 3) == Some(Found(0, 3, 6));
    assert AltAt(s, 0, 0) == Some(Found(0, 3, 6));
    MatchAt(s, Found(0, 3, 6));
    assert [s[6]] == "с";
  }

  /** "нужно сделать отчет в 15:00" yields the task "с" with no time. */
  lemma MatchOfReportAtThree()
    ensures Match("нужно сделать отчет в 15:00") == Some(Intent("с", None))
  {
    MatchAfterNuzhnoS("нужно сделать отчет в 15:00");
  }

  /** The chat box's own example, "нужно сделать дз по пятерке в 15:00",
      yields the task "с" with no time. */
  lemma MatchOfPlaceholder()
    ensures Match("нужно сделать дз по пятерке в 15:00") == Some(Intent("с", None))
  {
    MatchAfterNuzhnoS("нужно сделать дз по пятерке в 15:00");
  }

  /** A one-character description directly followed by " в 9:30" yields both groups. */
  lemma MatchWithClock()
    ensures Match("надо x в 9:30") == Some(Intent("x", Some("9:30")))
  {
    MatchWithClockOn("надо x в 9:30");
  }

  lemma MatchWithClockOn(s: string)
    requires s == "надо x в 9:30"
    ensures Match(s) == Some(Intent("x", Some("9:30")))
  {
    FoundAfterNado(s);
    MatchAt(s, Found(0, 5, 5));
    TimeAfterNado(s);
    assert [s[5]] == "x";
  }

  lemma TimeAfterNado(s: string)
    requires s == "надо x в 9:30"
    ensures TimeAt(s, 6) == Some("9:30")
  {
    assert s[6..] == " в 9:30";
    TimeAfterOneSpaceEachSide(s, 6);
    ShortClock(s, 9);
    assert s[9..13] == "9:30";
  }

  /** `H:MM` not preceded by a second digit is taken as is. */
  lemma ShortClock(s: string, k: nat)
    requires k + 4 <= |s| && IsDigit(s[k]) && s[k + 1] == ':' && IsDigit(s[k + 2]) && IsDigit(s[k + 3])
    ensures ClockAt(s, k) == Some(s[k..k + 4])
  {
  }

  lemma FoundAfterNado(s: string)
    requires s == "надо x в 9:30"
    ensures MatchFrom(s, 0) == Some(Found(0, 5, 5)) && s[5] == 'x'
  {
    KeywordFacts();
    assert s[..6] == "надо x";
    assert WordAt(s, 0, Keywords[5]);
    TitleAfterOneSpace(s, 4);
    assert Canon('н') != Canon('с') && Canon('н') != Canon('в') && Canon('н') != Canon('з') && Canon('н') != Canon('х');
    assert Canon('а') != Canon('у');
    assert AltAt(s, 0, 5) == Some(Found(0, 5, 5));
  }

  /** A greeting holds no lead verb, so nothing matches. */
  lemma NoMatchInGreeting()
    ensures Match("привет") == None
  {
    var s := "привет";
    MatchIffKeywordThenText(s);
    KeywordFacts();
    assert Canon('п') == 'П' && Canon('р') == 'Р' && Canon('и') == 'И' && Canon('н') == 'Н' && Canon('х') == 'Х';
    forall i, k, p | IntentAt(s, i, k, p) ensures false {
    }
  }
}
