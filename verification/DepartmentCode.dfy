/** The code given to a department created in the web client (apps/web/src/App.tsx). */
module DepartmentCode {
  import opened Decimal
  import opened Text

  /** The largest integer up to which the counter of the loop is exact. */
  const MAX_SAFE_INTEGER := 9_007_199_254_740_991

  predicate Kept(c: char) {
    'a' <= c <= 'z' || '0' <= c <= '9' || c == '@' || c == '.'
  }

  /** Puts one filler in place of every run of characters that are not kept. */
  function Collapse(s: string, keep: char -> bool, filler: char, inRun: bool): string {
    if s == "" then ""
    else if keep(s[0]) then [s[0]] + Collapse(s[1..], keep, filler, false)
    else (if inRun then "" else [filler]) + Collapse(s[1..], keep, filler, true)
  }

  /** normalizeSearchText on a text that has lost its accents and capitals. */
  function NormalizeSearchText(folded: string): string {
    Trim(Collapse(folded, Kept, ' ', false))
  }

  function Base(folded: string): string {
    var dashed := Upper(Collapse(NormalizeSearchText(folded), c => !IsSpace(c), '-', false));
    var whole := if dashed == "" then "DEPARTMENT" else dashed;
    if |whole| > 40 then whole[..40] else whole
  }

  /** A base as the first line of the function builds it. */
  predicate IsBase(base: string) {
    0 < |base| <= 40 && Upper(base) == base
  }

  lemma {:induction false} UpperOfUpper(s: string)
    ensures Upper(Upper(s)) == Upper(s)
  {
  }

  lemma BaseIsBase(folded: string)
    ensures IsBase(Base(folded))
  {
    var dashed := Upper(Collapse(NormalizeSearchText(folded), c => !IsSpace(c), '-', false));
    UpperOfUpper(Collapse(NormalizeSearchText(folded), c => !IsSpace(c), '-', false));
    var whole := if dashed == "" then "DEPARTMENT" else dashed;
    assert Upper("DEPARTMENT") == "DEPARTMENT";
    if |whole| > 40 {
      assert Upper(whole[..40]) == Upper(whole)[..40];
    }
  }

  // ---------------------------------------------------------------------------------------------
  // The base, told by the words of the name
  // ---------------------------------------------------------------------------------------------

  /** The characters 0 to 9, a to z, '@' and '.', by their codes in ASCII. */
  predicate InWord(c: char) {
    48 <= c as int <= 57 || 97 <= c as int <= 122 || c as int == 64 || c as int == 46
  }

  /** The longest runs of letters, digits, '@' and '.'. */
  function Words(s: string): (words: seq<string>)
    ensures s != "" && InWord(s[0]) ==> words != []
  {
    if s == "" then []
    else
      var rest := Words(s[1..]);
      if !InWord(s[0]) then rest
      else if |s| > 1 && InWord(s[1]) then [[s[0]] + rest[0]] + rest[1..]
      else [[s[0]]] + rest
  }

  lemma InWordIsKept(c: char)
    ensures InWord(c) <==> Kept(c)
    ensures InWord(c) ==> !IsSpace(c)
  {
  }

  /** What Collapse leaves behind the last word. */
  function Tail(s: string): string {
    if Words(s) != [] && !InWord(s[|s| - 1]) then " " else ""
  }

  lemma {:induction false} NoWordsAtEnd(s: string)
    requires s != "" && Words(s) == []
    ensures !InWord(s[|s| - 1])
  {
    if |s| > 1 {
      NoWordsAtEnd(s[1..]);
    }
  }

  lemma {:induction false} CollapsedIsWords(s: string)
    ensures Collapse(s, Kept, ' ', true) == Join(Words(s), " ") + Tail(s)
  {
    if s != "" {
      var rest := s[1..];
      CollapsedIsWords(rest);
      InWordIsKept(s[0]);
      if rest != "" {
        InWordIsKept(rest[0]);
        if Words(rest) == [] {
          NoWordsAtEnd(rest);
        }
      }
      hide Kept, InWord;
      if InWord(s[0]) {
        CollapsedWord(s);
      }
    }
  }

  lemma CollapsedWord(s: string)
    requires s != "" && InWord(s[0]) && Kept(s[0])
    requires |s| > 1 ==> (InWord(s[1]) <==> Kept(s[1]))
    requires |s| > 1 && Words(s[1..]) == [] ==> !InWord(s[|s| - 1])
    requires Collapse(s[1..], Kept, ' ', true) == Join(Words(s[1..]), " ") + Tail(s[1..])
    ensures Collapse(s, Kept, ' ', true) == Join(Words(s), " ") + Tail(s)
  {
    hide Kept, InWord, Join;
    var rest := s[1..];
    JoinOne([s[0]]);
    if rest == "" {
      assert Words(rest) == [] && Tail(s) == "" && Collapse(rest, Kept, ' ', false) == "";
      assert Words(s) == [[s[0]]] + Words(rest) == [[s[0]]];
      assert Collapse(s, Kept, ' ', true) == [s[0]] + "" == [s[0]];
    } else if InWord(s[1]) {
      LetterBeforeLetter(s);
    } else {
      LetterBeforeGap(s);
    }
  }

  lemma JoinOne(part: string)
    ensures Join([part], " ") == part && Join([], " ") == ""
  {
  }

  lemma JoinMore(first: string, rest: seq<string>)
    requires rest != []
    ensures Join([first] + rest, " ") == first + " " + Join(rest, " ")
  {
    assert ([first] + rest)[1..] == rest;
  }

  lemma LetterBeforeLetter(s: string)
    requires |s| > 1 && InWord(s[0]) && Kept(s[0]) && InWord(s[1]) && Kept(s[1])
    requires Collapse(s[1..], Kept, ' ', true) == Join(Words(s[1..]), " ") + Tail(s[1..])
    ensures Collapse(s, Kept, ' ', true) == Join(Words(s), " ") + Tail(s)
  {
    hide Kept, InWord, Join;
    var rest := s[1..];
    assert rest[0] == s[1] && rest[|rest| - 1] == s[|s| - 1];
    var w := Words(rest);
    assert w != [] && Words(s) == [[s[0]] + w[0]] + w[1..] && Tail(s) == Tail(rest);
    PrependLetter(s[0], w);
    assert Collapse(rest, Kept, ' ', false) == Collapse(rest, Kept, ' ', true);
    assert Collapse(s, Kept, ' ', true) == [s[0]] + Collapse(rest, Kept, ' ', false);
    hide Words, Tail, Collapse;
  }

  lemma LetterBeforeGap(s: string)
    requires |s| > 1 && InWord(s[0]) && Kept(s[0]) && !InWord(s[1]) && !Kept(s[1])
    requires Words(s[1..]) == [] ==> !InWord(s[|s| - 1])
    requires Collapse(s[1..], Kept, ' ', true) == Join(Words(s[1..]), " ") + Tail(s[1..])
    ensures Collapse(s, Kept, ' ', true) == Join(Words(s), " ") + Tail(s)
  {
    hide Kept, InWord, Join;
    var rest := s[1..];
    assert rest[0] == s[1] && rest[|rest| - 1] == s[|s| - 1];
    assert Words(s) == [[s[0]]] + Words(rest);
    assert Collapse(rest, Kept, ' ', false) == " " + Collapse(rest, Kept, ' ', true);
    assert Collapse(s, Kept, ' ', true) == [s[0]] + Collapse(rest, Kept, ' ', false);
    assert Words(rest) == [] ==> Tail(s) == " " && Tail(rest) == "";
    assert Words(rest) != [] ==> Tail(s) == Tail(rest);
    GapJoins([s[0]], Words(rest), Tail(rest));
  }

  lemma GapJoins(first: string, rest: seq<string>, tail: string)
    ensures rest == [] ==> Join([first] + rest, " ") == first && Join(rest, " ") == ""
    ensures rest != [] ==> Join([first] + rest, " ") + tail == first + (" " + (Join(rest, " ") + tail))
  {
    JoinOne(first);
    if rest == [] {
      assert [first] + rest == [first];
    } else {
      JoinMore(first, rest);
    }
  }

  lemma PrependLetter(c: char, words: seq<string>)
    requires words != []
    ensures Join([[c] + words[0]] + words[1..], " ") == [c] + Join(words, " ")
  {
    assert ([[c] + words[0]] + words[1..])[1..] == words[1..];
  }

  predicate Clean(word: string) {
    word != "" && forall c | c in word :: InWord(c)
  }

  lemma {:induction false} WordsAreClean(s: string)
    ensures forall w | w in Words(s) :: Clean(w)
  {
    hide InWord;
    if s != "" {
      WordsAreClean(s[1..]);
      var rest := Words(s[1..]);
      if InWord(s[0]) && |s| > 1 && InWord(s[1]) {
        assert rest[0] in rest;
        forall w | w in Words(s)
          ensures Clean(w)
        {
          assert w == [s[0]] + rest[0] || w in rest;
        }
      }
    }
  }

  /** Joined words start and end inside a word. */
  lemma {:induction false} JoinIsTrimmed(words: seq<string>)
    requires forall w | w in words :: Clean(w)
    ensures Trimmed(Join(words, " ")) && (words != [] ==> Join(words, " ") != "")
  {
    if |words| == 1 {
      assert words[0] in words && words[0][0] in words[0] && words[0][|words[0]| - 1] in words[0];
    } else if |words| > 1 {
      assert words[0] in words && words[0][0] in words[0];
      var rest := words[1..];
      assert forall w | w in rest :: w in words;
      JoinIsTrimmed(rest);
      assert Join(words, " ") == words[0] + " " + Join(rest, " ");
    }
  }

  lemma TrimPaddedBoth(s: string)
    requires Trimmed(s)
    ensures Trim(s) == s && Trim(s + " ") == s && Trim(" " + s) == s && Trim(" " + (s + " ")) == s
  {
    TrimOfTrimmed(s);
    TrimPadded(s);
    assert (" " + (s + " "))[1..] == s + " ";
    assert TrimStart(" " + (s + " ")) == TrimStart(s + " ");
  }

  lemma SearchTextIsWords(folded: string)
    ensures NormalizeSearchText(folded) == Join(Words(folded), " ")
  {
    CollapsedIsWords(folded);
    WordsAreClean(folded);
    JoinIsTrimmed(Words(folded));
    var joined := Join(Words(folded), " ");
    TrimPaddedBoth(joined);
    assert joined + "" == joined && " " + (joined + "") == " " + joined;
    assert Tail(folded) == "" || Tail(folded) == " ";
    if folded != "" && !Kept(folded[0]) {
      assert Collapse(folded, Kept, ' ', false) == " " + Collapse(folded, Kept, ' ', true) by {
        assert Collapse(folded, Kept, ' ', true) == Collapse(folded[1..], Kept, ' ', true);
      }
    } else {
      assert Collapse(folded, Kept, ' ', false) == Collapse(folded, Kept, ' ', true);
    }
    hide Words, Trim, Collapse, Join, InWord, Tail;
  }

  function NotSpace(c: char): bool {
    !IsSpace(c)
  }

  lemma {:induction false} DashWord(w: string, rest: string, inRun: bool)
    requires Clean(w)
    ensures Collapse(w + rest, NotSpace, '-', inRun) == w + Collapse(rest, NotSpace, '-', false)
  {
    assert w[0] in w && !IsSpace(w[0]);
    assert (w + rest)[1..] == w[1..] + rest;
    if |w| > 1 {
      DashWord(w[1..], rest, false);
    } else {
      assert w[1..] + rest == rest;
    }
  }

  lemma {:induction false} DashedWords(words: seq<string>)
    requires forall w | w in words :: Clean(w)
    ensures Collapse(Join(words, " "), NotSpace, '-', false) == Join(words, "-")
    ensures words != [] ==> Collapse(Join(words, " "), NotSpace, '-', true) == Join(words, "-")
  {
    hide InWord;
    if |words| == 1 {
      assert words[0] in words;
      DashWord(words[0], "", false);
      DashWord(words[0], "", true);
      assert words[0] + "" == words[0];
    } else if |words| > 1 {
      assert words[0] in words;
      var rest := words[1..];
      assert forall w | w in rest :: w in words;
      DashedWords(rest);
      var tail := " " + Join(rest, " ");
      assert tail[1..] == Join(rest, " ");
      assert Collapse(tail, NotSpace, '-', false) == "-" + Collapse(Join(rest, " "), NotSpace, '-', true);
      DashWord(words[0], tail, false);
      DashWord(words[0], tail, true);
      assert Join(words, " ") == words[0] + tail;
    }
  }

  lemma {:induction false} CollapseOfEqual(s: string, filler: char, inRun: bool)
    ensures Collapse(s, c => !IsSpace(c), filler, inRun) == Collapse(s, NotSpace, filler, inRun)
  {
    if s != "" {
      CollapseOfEqual(s[1..], filler, true);
      CollapseOfEqual(s[1..], filler, false);
    }
  }

  /** The base of a name: its words in capitals, joined by dashes and cut after 40 characters, or DEPARTMENT when there
      are none. */
  lemma BaseOfWords(folded: string)
    ensures var whole := if Words(folded) == [] then "DEPARTMENT" else Upper(Join(Words(folded), "-"));
      |Base(folded)| == (if |whole| < 40 then |whole| else 40) && Base(folded) <= whole
  {
    SearchTextIsWords(folded);
    WordsAreClean(folded);
    DashedWords(Words(folded));
    CollapseOfEqual(NormalizeSearchText(folded), '-', false);
    JoinedIsNotEmpty(Words(folded));
    hide NormalizeSearchText, Words, Collapse;
  }

  lemma JoinedIsNotEmpty(words: seq<string>)
    requires forall w | w in words :: Clean(w)
    ensures Join(words, "-") == "" <==> words == []
  {
    if words != [] {
      assert words[0] in words;
    }
  }

  function Suffix(index: nat): string {
    "-" + Numeral(index)
  }

  /** The index-th code tried: the base itself, then the base shortened to leave room for a counter. */
  function Candidate(base: string, index: nat): (code: string)
    requires IsBase(base) && 1 <= index <= MAX_SAFE_INTEGER
  {
    if index == 1 then base
    else
      SuffixLength(index);
      var suffix := Suffix(index);
      (if |base| <= 50 - |suffix| then base else base[..50 - |suffix|]) + suffix
  }

  lemma SuffixLength(index: nat)
    requires index <= MAX_SAFE_INTEGER
    ensures |Suffix(index)| <= 17
  {
    assert Power10(4) == 10_000;
    assert Power10(8) == 10_000 * Power10(4);
    assert Power10(12) == 10_000 * Power10(8);
    assert Power10(16) == 10_000 * Power10(12);
    NumeralLength(index, 16);
  }

  predicate EndsWith(code: string, suffix: string) {
    |suffix| <= |code| && code[|code| - |suffix|..] == suffix
  }

  lemma CandidateFits(base: string, index: nat)
    requires IsBase(base) && 1 <= index <= MAX_SAFE_INTEGER
    ensures 0 < |Candidate(base, index)| <= 50 && Upper(Candidate(base, index)) == Candidate(base, index)
    ensures index > 1 ==> |Candidate(base, index)| > |base|
    ensures index > 1 ==> EndsWith(Candidate(base, index), Suffix(index))
  {
    if index > 1 {
      SuffixLength(index);
      var suffix := Suffix(index);
      var head := if |base| <= 50 - |suffix| then base else base[..50 - |suffix|];
      assert forall c :: c in suffix ==> UpperChar(c) == c;
      assert forall i :: 0 <= i < |head| ==> UpperChar(head[i]) == Upper(base)[i];
      assert Upper(head + suffix) == head + suffix;
    }
  }

  /** A candidate is as much of the base as leaves room for a dash and the counter in 50 characters. */
  lemma CandidateMeans(base: string, index: nat)
    requires IsBase(base) && 1 < index <= MAX_SAFE_INTEGER
    ensures Candidate(base, 1) == base
    ensures var code := Candidate(base, index); var kept := |code| - 1 - |Numeral(index)|;
      && 0 <= kept <= |base| && code == base[..kept] + "-" + Numeral(index)
      && |code| <= 50 && (kept == |base| || |code| == 50)
  {
    hide IsBase, Numeral;
    SuffixLength(index);
    var kept := if |base| <= 49 - |Numeral(index)| then |base| else 49 - |Numeral(index)|;
    assert Candidate(base, index) == base[..kept] + "-" + Numeral(index);
  }

  /** No two indices give the same code: the counter can be read off its end. */
  lemma CandidatesDiffer(base: string, i: nat, j: nat)
    requires IsBase(base) && 1 <= i < j <= MAX_SAFE_INTEGER
    ensures Candidate(base, i) != Candidate(base, j)
  {
    CandidateFits(base, j);
    if i > 1 && Candidate(base, i) == Candidate(base, j) {
      CandidateFits(base, i);
      SameCounter(Candidate(base, i), i, j);
    }
  }

  /** The suffix starts at the last dash. */
  lemma LastDash(code: string, index: nat)
    requires EndsWith(code, Suffix(index))
    ensures var at := |code| - |Suffix(index)|;
      code[at] == '-' && code[at + 1..] == Numeral(index) && forall k :: at < k < |code| ==> code[k] != '-'
  {
    var at := |code| - |Suffix(index)|;
    assert code[at] == Suffix(index)[0];
    assert code[at + 1..] == Suffix(index)[1..] == Numeral(index);
    forall k | at < k < |code| ensures code[k] != '-' {
      assert code[k] == Numeral(index)[k - at - 1];
      assert Numeral(index)[k - at - 1] in Numeral(index);
    }
  }

  lemma SameCounter(code: string, i: nat, j: nat)
    requires EndsWith(code, Suffix(i)) && EndsWith(code, Suffix(j))
    ensures i == j
  {
    LastDash(code, i);
    LastDash(code, j);
    NumeralInjective(i, j);
  }

  /** The codes in use, in capitals. */
  function Codes(departments: seq<string>): set<string> {
    set department | department in departments :: Upper(department)
  }

  /** `tries` counts the lookups; there are never more than one beyond the number of codes in use, and
      the code is the first candidate that is free. */
  method CreateInternalDepartmentCode(folded: string, departments: seq<string>) returns (code: string, ghost tries: nat)
    requires |departments| < MAX_SAFE_INTEGER - 1
    ensures Upper(code) == code && code !in Codes(departments) && 0 < |code| <= 50
    ensures 1 <= tries <= |Codes(departments)| + 1 <= MAX_SAFE_INTEGER
    ensures IsBase(Base(folded)) && code == Candidate(Base(folded), tries)
    ensures forall k :: 1 <= k < tries ==> Candidate(Base(folded), k) in Codes(departments)
  {
    var base := Base(folded);
    BaseIsBase(folded);
    var existing := Codes(departments);
    AtMost(departments);
    hide Base, Codes, Suffix, Upper, IsBase;
    code := base;
    var index := 2;
    ghost var taken: set<string> := {};
    while code in existing
      invariant 2 <= index <= |existing| + 2
      invariant code == Candidate(base, index - 1)
      invariant taken <= existing && |taken| == index - 2
      invariant forall c :: c in taken ==> exists k :: 1 <= k < index - 1 && c == Candidate(base, k)
      invariant forall k :: 1 <= k < index - 1 ==> Candidate(base, k) in taken
      decreases |existing| - |taken|
    {
      forall k | 1 <= k < index - 1 ensures code != Candidate(base, k) {
        CandidatesDiffer(base, k, index - 1);
      }
      taken := taken + {code};
      Smaller(taken, existing);
      SuffixLength(index);
      var suffix := Suffix(index);
      index := index + 1;
      code := (if |base| <= 50 - |suffix| then base else base[..50 - |suffix|]) + suffix;
    }
    tries := index - 1;
    CandidateFits(base, tries);
  }

  lemma {:induction false} Smaller(a: set<string>, b: set<string>)
    requires a <= b
    ensures |a| <= |b|
  {
    if a != {} {
      var x :| x in a;
      Smaller(a - {x}, b - {x});
    }
  }

  lemma {:induction false} AtMost(departments: seq<string>)
    ensures |Codes(departments)| <= |departments|
  {
    if departments != [] {
      AtMost(departments[1..]);
      assert departments == [departments[0]] + departments[1..];
      assert Codes(departments) == Codes(departments[1..]) + {Upper(departments[0])};
    }
  }
}
