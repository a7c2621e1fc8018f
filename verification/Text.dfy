/** The string operations of JavaScript and Go that the services share, on ASCII white space and letters. */
module Text {
  predicate IsSpace(c: char) {
    c == ' ' || '\t' <= c <= '\r'
  }

  function LowerChar(c: char): char {
    if 'A' <= c <= 'Z' then ((c as int) + 32) as char else c
  }

  function UpperChar(c: char): char {
    if 'a' <= c <= 'z' then ((c as int) - 32) as char else c
  }

  function Lower(s: string): (r: string)
    ensures |r| == |s| && forall i :: 0 <= i < |s| ==> r[i] == LowerChar(s[i])
  {
    seq(|s|, i requires 0 <= i < |s| => LowerChar(s[i]))
  }

  function Upper(s: string): (r: string)
    ensures |r| == |s| && forall i :: 0 <= i < |s| ==> r[i] == UpperChar(s[i])
  {
    seq(|s|, i requires 0 <= i < |s| => UpperChar(s[i]))
  }

  lemma LowerOfUpper(s: string)
    ensures Lower(Upper(s)) == Lower(s)
  {
  }

  predicate Trimmed(s: string) {
    s == "" || (!IsSpace(s[0]) && !IsSpace(s[|s| - 1]))
  }

  function TrimStart(s: string): string {
    if s != "" && IsSpace(s[0]) then TrimStart(s[1..]) else s
  }

  function TrimEnd(s: string): string {
    if s != "" && IsSpace(s[|s| - 1]) then TrimEnd(s[..|s| - 1]) else s
  }

  function Trim(s: string): string {
    TrimEnd(TrimStart(s))
  }

  lemma {:induction false} TrimStartIsSuffix(s: string)
    ensures |TrimStart(s)| <= |s| && TrimStart(s) == s[|s| - |TrimStart(s)|..]
    ensures TrimStart(s) == "" || !IsSpace(TrimStart(s)[0])
  {
    if s != "" && IsSpace(s[0]) {
      TrimStartIsSuffix(s[1..]);
    }
  }

  lemma {:induction false} TrimEndIsPrefix(s: string)
    ensures TrimEnd(s) <= s
    ensures TrimEnd(s) == "" || !IsSpace(TrimEnd(s)[|TrimEnd(s)| - 1])
  {
    if s != "" && IsSpace(s[|s| - 1]) {
      TrimEndIsPrefix(s[..|s| - 1]);
    }
  }

  lemma TrimIsTrimmed(s: string)
    ensures Trimmed(Trim(s))
  {
    TrimStartIsSuffix(s);
    TrimEndIsPrefix(TrimStart(s));
  }

  /** Trimming takes away the blanks before the first other character and after the last one, and nothing else. */
  lemma TrimMeans(s: string) returns (from: nat, to: nat)
    ensures from <= to <= |s| && Trim(s) == s[from..to]
    ensures forall k | 0 <= k < from || to <= k < |s| :: IsSpace(s[k])
    ensures from < to ==> !IsSpace(s[from]) && !IsSpace(s[to - 1])
  {
    TrimStartIsSuffix(s);
    TrimEndIsPrefix(TrimStart(s));
    from := |s| - |TrimStart(s)|;
    to := from + |Trim(s)|;
    StartIsSpace(s);
    EndIsSpace(TrimStart(s));
    forall k | to <= k < |s| ensures IsSpace(s[k]) {
      assert s[k] == TrimStart(s)[k - from];
    }
  }

  lemma {:induction false} StartIsSpace(s: string)
    ensures forall k | 0 <= k < |s| - |TrimStart(s)| :: IsSpace(s[k])
  {
    TrimStartIsSuffix(s);
    if s != "" && IsSpace(s[0]) {
      StartIsSpace(s[1..]);
      forall k | 0 <= k < |s| - |TrimStart(s)| ensures IsSpace(s[k]) {
        assert k > 0 ==> s[k] == s[1..][k - 1];
      }
    }
  }

  lemma {:induction false} EndIsSpace(s: string)
    ensures forall k | |TrimEnd(s)| <= k < |s| :: IsSpace(s[k])
  {
    if s != "" && IsSpace(s[|s| - 1]) {
      EndIsSpace(s[..|s| - 1]);
      forall k | |TrimEnd(s)| <= k < |s| ensures IsSpace(s[k]) {
        assert k < |s| - 1 ==> s[k] == s[..|s| - 1][k];
      }
    }
  }

  /** The six blanks of ASCII, and the pairs of letters. */
  lemma CharactersMean(c: char)
    ensures IsSpace(c) <==> c as int in {9, 10, 11, 12, 13, 32}
    ensures LowerChar(c) != c <==> 65 <= c as int <= 90
    ensures UpperChar(c) != c <==> 97 <= c as int <= 122
    ensures LowerChar(c) != c ==> UpperChar(LowerChar(c)) == c
    ensures UpperChar(c) != c ==> LowerChar(UpperChar(c)) == c
    ensures LowerChar('A') == 'a' && LowerChar('Z') == 'z' && ('A' <= c < 'Z' ==>
      LowerChar((c as int + 1) as char) as int == LowerChar(c) as int + 1)
  {
  }

  lemma TrimOfTrimmed(s: string)
    requires Trimmed(s)
    ensures Trim(s) == s
  {
  }

  /** Trimming only drops characters. */
  lemma TrimKeepsOut(s: string, c: char)
    requires c !in s
    ensures c !in Trim(s)
  {
    TrimStartIsSuffix(s);
    TrimEndIsPrefix(TrimStart(s));
  }

  /** One blank on either side of a trimmed text goes away. */
  lemma TrimPadded(s: string)
    requires Trimmed(s)
    ensures Trim(s + " ") == s && Trim(" " + s) == s
  {
    assert (" " + s)[1..] == s;
    assert (s + " ")[..|s|] == s;
    if s == "" {
      assert TrimStart(" ") == TrimStart(" "[1..]);
    } else {
      assert TrimStart(s + " ") == s + " ";
      assert TrimEnd(s + " ") == TrimEnd(s);
      assert TrimStart(" " + s) == TrimStart(s);
    }
  }

  lemma {:induction false} TrimStartOfUpper(s: string)
    ensures TrimStart(Upper(s)) == Upper(TrimStart(s))
  {
    if s != "" && IsSpace(s[0]) {
      assert Upper(s)[1..] == Upper(s[1..]);
      TrimStartOfUpper(s[1..]);
    }
  }

  lemma {:induction false} TrimEndOfUpper(s: string)
    ensures TrimEnd(Upper(s)) == Upper(TrimEnd(s))
  {
    if s != "" && IsSpace(s[|s| - 1]) {
      assert Upper(s)[..|s| - 1] == Upper(s[..|s| - 1]);
      TrimEndOfUpper(s[..|s| - 1]);
    }
  }

  /** Blanks have no case, so trimming and upper-casing commute. */
  lemma TrimOfUpper(s: string)
    ensures Trim(Upper(s)) == Upper(Trim(s))
  {
    TrimStartOfUpper(s);
    TrimEndOfUpper(TrimStart(s));
  }

  /** String.split on one character. */
  function Split(s: string, separator: char): (parts: seq<string>)
    ensures |parts| >= 1
    ensures forall part :: part in parts ==> separator !in part
  {
    if s == "" then [""]
    else
      var rest := Split(s[1..], separator);
      if s[0] == separator then [""] + rest else [[s[0]] + rest[0]] + rest[1..]
  }

  function Join(parts: seq<string>, separator: string): string {
    if parts == [] then ""
    else if |parts| == 1 then parts[0]
    else parts[0] + separator + Join(parts[1..], separator)
  }

  lemma {:induction false} SplitFirst(first: string, rest: string, separator: char)
    requires separator !in first
    ensures Split(first + [separator] + rest, separator) == [first] + Split(rest, separator)
  {
    var whole := first + [separator] + rest;
    if first == "" {
      assert whole[1..] == rest;
    } else {
      assert whole[1..] == first[1..] + [separator] + rest;
      SplitFirst(first[1..], rest, separator);
      assert whole[0] == first[0] && [first[0]] + first[1..] == first;
      assert ([first[1..]] + Split(rest, separator))[1..] == Split(rest, separator);
    }
  }

  lemma {:induction false} SplitNone(s: string, separator: char)
    requires separator !in s
    ensures Split(s, separator) == [s]
  {
    if s != "" {
      SplitNone(s[1..], separator);
      assert [s[0]] + s[1..] == s;
    }
  }

  lemma {:induction false} SplitOfJoin(parts: seq<string>, separator: char)
    requires parts != []
    requires forall part :: part in parts ==> separator !in part
    ensures Split(Join(parts, [separator]), separator) == parts
  {
    if |parts| == 1 {
      SplitNone(parts[0], separator);
    } else {
      SplitFirst(parts[0], Join(parts[1..], [separator]), separator);
      SplitOfJoin(parts[1..], separator);
    }
  }

  lemma {:induction false} JoinOfSplit(s: string, separator: char)
    ensures Join(Split(s, separator), [separator]) == s
  {
    if s != "" {
      var rest := Split(s[1..], separator);
      JoinOfSplit(s[1..], separator);
      if s[0] != separator {
        assert ([[s[0]] + rest[0]] + rest[1..])[1..] == rest[1..];
      }
    }
  }
}
