/** Printing amounts and hexadecimal numbers in groups of digits, as a regular expression finds them. */
module DigitGroups {
  import opened Basics

  type CharClass = char -> bool

  predicate IsDigit(c: char) {
    '0' <= c <= '9'
  }

  predicate IsWord(c: char) {
    '0' <= c <= '9' || 'a' <= c <= 'z' || 'A' <= c <= 'Z' || c == '_'
  }

  const QUOTE := '\''

  predicate AllIn(p: CharClass, s: string, from: nat, to: nat)
    requires from <= to <= |s|
  {
    forall i | from <= i < to :: p(s[i])
  }

  // ----- the regular expression: one to n characters, followed by whole groups of n up to the end -----

  /** The lookahead: whole groups of n characters from `i` to the end of the text. */
  predicate GroupsAhead(p: CharClass, n: nat, s: string, i: nat)
    requires n >= 1 && i <= |s|
    decreases |s| - i
  {
    i == |s| || (i + n <= |s| && AllIn(p, s, i, i + n) && GroupsAhead(p, n, s, i + n))
  }

  /** The length of the match at `i`, trying `len` characters first and then fewer; 0 when there is none. */
  function MatchLength(p: CharClass, n: nat, s: string, i: nat, len: nat): nat
    requires n >= 1 && i <= |s|
  {
    if len == 0 then 0
    else if i + len <= |s| && AllIn(p, s, i, i + len) && GroupsAhead(p, n, s, i + len) then len
    else MatchLength(p, n, s, i, len - 1)
  }

  lemma {:induction false} MatchFits(p: CharClass, n: nat, s: string, i: nat, len: nat)
    requires n >= 1 && i <= |s|
    ensures i + MatchLength(p, n, s, i, len) <= |s|
  {
    if len != 0 {
      MatchFits(p, n, s, i, len - 1);
    }
  }

  /** All matches from `i` on, each search starting behind the match before it. */
  function Scan(p: CharClass, n: nat, s: string, i: nat): seq<string>
    requires n >= 1 && i <= |s|
    decreases |s| - i
  {
    MatchFits(p, n, s, i, n);
    var len := MatchLength(p, n, s, i, n);
    if i == |s| then []
    else if len == 0 then Scan(p, n, s, i + 1)
    else [s[i..i + len]] + Scan(p, n, s, i + len)
  }

  // ----- grouping from the right, the way numbers are read -----

  function GroupFromRight(n: nat, s: string): seq<string>
    requires n >= 1
  {
    if |s| == 0 then []
    else if |s| <= n then [s]
    else GroupFromRight(n, s[..|s| - n]) + [s[|s| - n..]]
  }

  /** The length of the first group of `m` characters. */
  function FirstLength(n: nat, m: nat): (r: nat)
    requires n >= 1
    ensures r <= n && r <= m && (m > 0 ==> r > 0)
  {
    if m <= n then m else FirstLength(n, m - n)
  }

  /** Whole groups of n make up a length of m. */
  predicate Whole(n: nat, m: nat)
    requires n >= 1
  {
    m == 0 || (m >= n && Whole(n, m - n))
  }

  lemma {:induction false} WholeAfterFirst(n: nat, m: nat, len: nat)
    requires n >= 1 && 1 <= len <= n && len <= m
    ensures Whole(n, m - len) <==> len == FirstLength(n, m)
  {
    if m > n {
      if len <= m - n {
        WholeAfterFirst(n, m - n, len);
      }
    }
  }

  lemma {:induction false} AheadIsWhole(p: CharClass, n: nat, s: string, i: nat)
    requires n >= 1 && i <= |s|
    ensures GroupsAhead(p, n, s, i) <==> AllIn(p, s, i, |s|) && Whole(n, |s| - i)
    decreases |s| - i
  {
    if i + n <= |s| {
      AheadIsWhole(p, n, s, i + n);
    }
  }

  /** A match exists exactly where all characters up to the end are in the class, and it is then as long
      as the first group of what is left. */
  lemma {:induction false} MatchIsFirstGroup(p: CharClass, n: nat, s: string, i: nat, len: nat)
    requires n >= 1 && i < |s| && len <= n
    ensures MatchLength(p, n, s, i, len)
         == if AllIn(p, s, i, |s|) && FirstLength(n, |s| - i) <= len then FirstLength(n, |s| - i) else 0
  {
    if len != 0 {
      MatchIsFirstGroup(p, n, s, i, len - 1);
      if i + len <= |s| {
        AheadIsWhole(p, n, s, i + len);
        WholeAfterFirst(n, |s| - i, len);
      }
    }
  }

  /** Where the longest tail in the class begins. */
  function TailStart(p: CharClass, s: string): (r: nat)
    ensures r <= |s| && AllIn(p, s, r, |s|)
    ensures r > 0 ==> !p(s[r - 1])
  {
    if |s| == 0 then 0
    else if !p(s[|s| - 1]) then |s|
    else
      var r := TailStart(p, s[..|s| - 1]);
      assert forall i | r <= i < |s| - 1 :: p(s[..|s| - 1][i]) && s[..|s| - 1][i] == s[i];
      r
  }

  function Tail(p: CharClass, s: string): string {
    s[TailStart(p, s)..]
  }

  lemma LastGroup(n: nat, front: string, back: string)
    requires n >= 1 && |back| == n
    ensures GroupFromRight(n, front + back) == GroupFromRight(n, front) + [back]
  {
    var s := front + back;
    assert s[..|s| - n] == front && s[|s| - n..] == back;
    assert |front| == 0 ==> s == back;
  }

  lemma OnlyGroup(n: nat, s: string)
    requires n >= 1 && 0 < |s| <= n
    ensures GroupFromRight(n, s) == [s] && GroupFromRight(n, "") == []
  {
  }

  lemma {:induction false} FirstGroup(n: nat, s: string)
    requires n >= 1 && |s| > 0
    ensures var len := FirstLength(n, |s|);
      GroupFromRight(n, s) == [s[..len]] + GroupFromRight(n, s[len..])
    decreases |s|
  {
    hide GroupFromRight;
    var len := FirstLength(n, |s|);
    if |s| <= n {
      OnlyGroup(n, s);
      assert s[..len] == s && s[len..] == "";
    } else {
      var front, back := s[..|s| - n], s[|s| - n..];
      FirstGroup(n, front);
      LastGroup(n, front, back);
      LastGroup(n, front[len..], back);
      assert s == front + back && s[len..] == front[len..] + back && front[..len] == s[..len];
    }
  }

  /** One step of the scan: past a position before the tail, or over the first group of what is left. */
  lemma ScanStep(p: CharClass, n: nat, s: string, i: nat)
    requires n >= 1 && i < |s|
    ensures var len := FirstLength(n, |s| - i);
      Scan(p, n, s, i) == if i < TailStart(p, s) then Scan(p, n, s, i + 1) else [s[i..i + len]] + Scan(p, n, s, i + len)
  {
    hide MatchLength;
    MatchFits(p, n, s, i, n);
    MatchIsFirstGroup(p, n, s, i, n);
    var start := TailStart(p, s);
    assert i < start ==> !p(s[start - 1]);
  }

  /** The greedy scan from the left finds exactly the groups counted from the right, of the tail that is
      in the class. */
  lemma {:induction false} ScanGroupsTheTail(p: CharClass, n: nat, s: string, i: nat)
    requires n >= 1 && i <= |s|
    ensures Scan(p, n, s, i) == GroupFromRight(n, s[if i < TailStart(p, s) then TailStart(p, s) else i..])
    decreases |s| - i
  {
    hide Scan, GroupFromRight, TailStart;
    if i == |s| {
      ScanEnds(p, n, s);
    } else {
      ScanStep(p, n, s, i);
      if i < TailStart(p, s) {
        ScanGroupsTheTail(p, n, s, i + 1);
      } else {
        FirstGroupAt(n, s, i);
        ScanGroupsTheTail(p, n, s, i + FirstLength(n, |s| - i));
      }
    }
  }

  lemma FirstGroupAt(n: nat, s: string, i: nat)
    requires n >= 1 && i < |s|
    ensures var len := FirstLength(n, |s| - i);
      GroupFromRight(n, s[i..]) == [s[i..i + len]] + GroupFromRight(n, s[i + len..])
  {
    hide GroupFromRight;
    var len := FirstLength(n, |s| - i);
    FirstGroup(n, s[i..]);
    assert s[i..][..len] == s[i..i + len] && s[i..][len..] == s[i + len..];
  }

  lemma ScanEnds(p: CharClass, n: nat, s: string)
    requires n >= 1
    ensures Scan(p, n, s, |s|) == [] && GroupFromRight(n, s[|s|..]) == []
  {
  }

  // ----- groups and separators -----

  function Flatten(groups: seq<string>): string {
    if |groups| == 0 then "" else Flatten(groups[..|groups| - 1]) + groups[|groups| - 1]
  }

  function Join(groups: seq<string>): string {
    if |groups| == 0 then ""
    else if |groups| == 1 then groups[0]
    else Join(groups[..|groups| - 1]) + [QUOTE] + groups[|groups| - 1]
  }

  /** `split` at the separator and `join` with nothing. */
  function RemoveQuotes(s: string): string {
    if |s| == 0 then ""
    else if s[0] == QUOTE then RemoveQuotes(s[1..])
    else [s[0]] + RemoveQuotes(s[1..])
  }

  lemma {:induction false} RemoveQuotesConcat(a: string, b: string)
    ensures RemoveQuotes(a + b) == RemoveQuotes(a) + RemoveQuotes(b)
  {
    if |a| == 0 {
      assert a + b == b;
    } else {
      assert (a + b)[1..] == a[1..] + b;
      RemoveQuotesConcat(a[1..], b);
    }
  }

  lemma {:induction false} RemoveQuotesFacts(s: string)
    ensures QUOTE !in RemoveQuotes(s)
    ensures QUOTE !in s ==> RemoveQuotes(s) == s
  {
    if |s| != 0 {
      RemoveQuotesFacts(s[1..]);
      assert s == [s[0]] + s[1..];
    }
  }

  /** Groups from the right: put together they are the text, every group but the first is full, and the
      first has at least one character and at most a full group. */
  lemma {:induction false} GroupsAreFull(n: nat, s: string)
    requires n >= 1
    ensures var g := GroupFromRight(n, s);
      && Flatten(g) == s
      && (|g| > 0 <==> |s| > 0)
      && (|g| > 0 ==> 1 <= |g[0]| <= n)
      && forall i | 1 <= i < |g| :: |g[i]| == n
  {
    if |s| > n {
      var front := GroupFromRight(n, s[..|s| - n]);
      GroupsAreFull(n, s[..|s| - n]);
      assert (front + [s[|s| - n..]])[..|front|] == front;
      assert s == s[..|s| - n] + s[|s| - n..];
    } else if |s| > 0 {
      assert [s][..0] == [] && "" + s == s;
    }
  }

  /** Taking the separators out of joined groups gives the text back. */
  lemma {:induction false} JoinThenRemove(n: nat, s: string)
    requires n >= 1 && QUOTE !in s
    ensures RemoveQuotes(Join(GroupFromRight(n, s))) == s
  {
    RemoveQuotesFacts(s);
    if |s| > n {
      var front, back := s[..|s| - n], s[|s| - n..];
      var groups := GroupFromRight(n, front);
      assert s == front + back;
      JoinThenRemove(n, front);
      GroupsAreFull(n, front);
      RemoveQuotesFacts(back);
      JoinOneMore(groups, back);
    }
  }

  lemma JoinLast(groups: seq<string>, back: string)
    requires |groups| > 0
    ensures Join(groups + [back]) == Join(groups) + [QUOTE] + back
  {
    assert (groups + [back])[..|groups|] == groups;
  }

  lemma OnlyQuote()
    ensures RemoveQuotes([QUOTE]) == ""
  {
  }

  lemma JoinOneMore(groups: seq<string>, back: string)
    requires |groups| > 0
    ensures RemoveQuotes(Join(groups + [back])) == RemoveQuotes(Join(groups)) + RemoveQuotes(back)
  {
    hide Join, RemoveQuotes;
    JoinLast(groups, back);
    RemoveQuotesConcat(Join(groups), [QUOTE]);
    RemoveQuotesConcat(Join(groups) + [QUOTE], back);
    OnlyQuote();
  }

  // ----- amounts -----

  /** The matches, or the whole text when there is none. */
  function Grouped(p: CharClass, n: nat, s: string): seq<string>
    requires n >= 1
  {
    var matches := Scan(p, n, s, 0);
    if |matches| == 0 then [s] else matches
  }

  function ToAmount(text: string): Result<string> {
    var digits := RemoveQuotes(text);
    if |digits| == 0 || exists i | 0 <= i < |digits| :: !IsDigit(digits[i]) then Err("not a valid integer")
    else Ok(Join(Grouped(IsDigit, 3, digits)))
  }

  /** An amount is printed exactly when its text, separators aside, is all digits; it is then grouped by
      three from the right, and the digits can be read back from the groups. */
  lemma {:induction false} AmountGroupsByThree(text: string)
    ensures var digits := RemoveQuotes(text);
      && (ToAmount(text).Ok? <==> |digits| > 0 && AllIn(IsDigit, digits, 0, |digits|))
      && (ToAmount(text).Ok? ==> ToAmount(text).value == Join(GroupFromRight(3, digits)))
      && (ToAmount(text).Ok? ==> RemoveQuotes(ToAmount(text).value) == digits)
  {
    hide Scan, GroupFromRight, Join, RemoveQuotes, IsDigit;
    var digits := RemoveQuotes(text);
    RemoveQuotesFacts(text);
    if |digits| > 0 && AllIn(IsDigit, digits, 0, |digits|) {
      ScanGroupsTheTail(IsDigit, 3, digits, 0);
      assert TailStart(IsDigit, digits) == 0;
      assert digits[0..] == digits;
      GroupsAreFull(3, digits);
      JoinThenRemove(3, digits);
    }
  }

  /** Printing a printed amount changes nothing, and two texts print alike only if they have the same digits. */
  lemma {:induction false} AmountIsIdempotent(text: string, other: string)
    requires ToAmount(text).Ok?
    ensures ToAmount(ToAmount(text).value) == ToAmount(text)
    ensures ToAmount(other) == ToAmount(text) <==> RemoveQuotes(other) == RemoveQuotes(text)
  {
    AmountGroupsByThree(text);
    AmountGroupsByThree(ToAmount(text).value);
    AmountGroupsByThree(other);
  }

  // ----- hexadecimal -----

  const HEX_PREFIX := "0x"

  function ToSimpleHex(text: string): string {
    var plain := RemoveQuotes(text);
    if HEX_PREFIX <= plain then plain[|HEX_PREFIX|..] else plain
  }

  function ToHex(text: string): string {
    if text == "" then "" else HEX_PREFIX + Join(Grouped(IsWord, 4, ToSimpleHex(text)))
  }

  /** What survives the printing: all of it when no match is found, and otherwise the tail behind the last
      character that is no word character. */
  function Printed(s: string): string {
    if Tail(IsWord, s) == "" then s else Tail(IsWord, s)
  }

  lemma SimpleHexHasNoQuote(text: string)
    ensures QUOTE !in ToSimpleHex(text)
  {
    RemoveQuotesFacts(text);
  }

  /** Reading back what was printed with the prefix leaves the groups without their separators. */
  lemma SimpleOfPrinted(joined: string)
    ensures ToSimpleHex(HEX_PREFIX + joined) == RemoveQuotes(joined)
  {
    hide RemoveQuotes;
    RemoveQuotesConcat(HEX_PREFIX, joined);
    RemoveQuotesFacts(HEX_PREFIX);
    assert (HEX_PREFIX + RemoveQuotes(joined))[|HEX_PREFIX|..] == RemoveQuotes(joined);
  }

  /** The groups that are printed, and what is left of them without separators. */
  lemma PrintedGroups(s: string)
    requires QUOTE !in s
    ensures Grouped(IsWord, 4, s) == if Tail(IsWord, s) == "" then [s] else GroupFromRight(4, Tail(IsWord, s))
    ensures RemoveQuotes(Join(Grouped(IsWord, 4, s))) == Printed(s)
  {
    hide RemoveQuotes, GroupFromRight, Scan, TailStart;
    ScanGroupsTheTail(IsWord, 4, s, 0);
    GroupsAreFull(4, Tail(IsWord, s));
    RemoveQuotesFacts(s);
    JoinThenRemove(4, Tail(IsWord, s));
  }

  lemma HexPrints(text: string)
    requires text != ""
    ensures var s := ToSimpleHex(text);
      && ToHex(text) == HEX_PREFIX + Join(if Tail(IsWord, s) == "" then [s] else GroupFromRight(4, Tail(IsWord, s)))
      && ToSimpleHex(ToHex(text)) == Printed(s)
  {
    hide ToSimpleHex, Grouped, Join, RemoveQuotes, GroupFromRight, Tail, Printed;
    SimpleHexHasNoQuote(text);
    PrintedGroups(ToSimpleHex(text));
    SimpleOfPrinted(Join(Grouped(IsWord, 4, ToSimpleHex(text))));
  }

  lemma PrintedIsStable(s: string)
    ensures Printed(Printed(s)) == Printed(s)
    ensures Printed(s) == s <==> s == "" || !IsWord(s[|s| - 1]) || AllIn(IsWord, s, 0, |s|)
    ensures Tail(IsWord, Printed(s)) == Tail(IsWord, s)
  {
    var tail := Tail(IsWord, s);
    if tail != "" {
      assert AllIn(IsWord, tail, 0, |tail|);
      assert TailStart(IsWord, tail) == 0;
      if TailStart(IsWord, s) == 0 {
        assert tail == s;
      } else {
        assert |tail| < |s|;
      }
    }
  }

  /** On every text, printing what was printed changes nothing. */
  lemma {:induction false} HexIsIdempotent(text: string)
    ensures ToHex(ToHex(text)) == ToHex(text)
  {
    if text != "" {
      HexPrints(text);
      HexPrints(ToHex(text));
      PrintedIsStable(ToSimpleHex(text));
    }
  }

  /** The printed form has the same simple form exactly when the simple form is empty, all word characters,
      or ends in another character; any other text loses what stands before its last such character. */
  lemma {:induction false} HexKeepsSimpleForm(text: string)
    ensures ToSimpleHex(ToHex(text)) == ToSimpleHex(text)
        <==> var s := ToSimpleHex(text); s == "" || AllIn(IsWord, s, 0, |s|) || !IsWord(s[|s| - 1])
  {
    if text != "" {
      HexPrints(text);
      PrintedIsStable(ToSimpleHex(text));
    }
  }

  /** For instance, what stands before a hyphen is lost. */
  lemma {:induction false} HyphenExample()
    ensures ToSimpleHex(ToHex("a-b")) != ToSimpleHex("a-b")
  {
    var s := "a-b";
    assert s[1..][1..] == "b" && s[1..] == "-b" && "b"[1..] == "";
    assert RemoveQuotes("b") == "b" && RemoveQuotes("-b") == "-b" && RemoveQuotes(s) == s;
    assert ToSimpleHex(s) == s;
    assert !IsWord(s[1]) && IsWord(s[2]);
    HexKeepsSimpleForm(s);
  }

  /** For word characters the printed form is the groups of four counted from the right. */
  lemma {:induction false} HexGroupsByFour(text: string)
    requires var s := ToSimpleHex(text); s != "" && AllIn(IsWord, s, 0, |s|)
    ensures ToHex(text) == HEX_PREFIX + Join(GroupFromRight(4, ToSimpleHex(text)))
    ensures ToSimpleHex(ToHex(text)) == ToSimpleHex(text)
  {
    HexPrints(text);
    HexKeepsSimpleForm(text);
    var s := ToSimpleHex(text);
    assert TailStart(IsWord, s) == 0;
    assert Tail(IsWord, s) == s;
  }

  // ----- character by character -----

  /** The separators among the last `k` characters. */
  function Separators(n: nat, k: nat): nat {
    k / (n + 1)
  }

  /** The separators between groups that hold `m` characters. */
  function Breaks(n: nat, m: nat): nat
    requires n >= 1 && m >= 1
  {
    (m - 1) / n
  }

  predicate IsSeparator(n: nat, k: nat) {
    k % (n + 1) == n
  }

  /** The k-th character of `j` from the right: a separator, or the character of `s` that stands there without them. */
  predicate StandsInGroups(n: nat, j: string, s: string, k: nat) {
    k < |j| ==>
      if IsSeparator(n, k) then j[|j| - 1 - k] == '\''
      else 0 <= k - Separators(n, k) < |s| && j[|j| - 1 - k] == s[|s| - 1 - (k - Separators(n, k))]
  }

  /** Counted from the right, every fourth character of an amount, and every fifth of a hexadecimal number, is a
      separator; the others are the characters of the text, in their order. */
  lemma {:induction false} JoinedAt(n: nat, s: string, k: nat)
    requires (n == 3 || n == 4) && |s| > 0
    ensures var j := Join(GroupFromRight(n, s));
      && |j| == |s| + (|s| - 1) / n
      && (k < |j| ==>
            if k % (n + 1) == n then j[|j| - 1 - k] == '\''
            else 0 <= k - k / (n + 1) < |s| && j[|j| - 1 - k] == s[|s| - 1 - (k - k / (n + 1))])
  {
    hide GroupFromRight, Join;
    assert n >= 1 && |s| >= 1;
    JoinedSize(n, s);
    JoinedInGroups(n, s, k);
  }

  lemma {:induction false} JoinedSize(n: nat, s: string)
    requires (n == 3 || n == 4) && |s| > 0
    ensures |Join(GroupFromRight(n, s))| == |s| + Breaks(n, |s|)
    decreases |s|
  {
    hide GroupFromRight, Join, Breaks;
    BreaksOfMore(n, |s|);
    if |s| <= n {
      OnlyGroup(n, s);
      JoinOne(s);
    } else {
      var front, back := s[..|s| - n], s[|s| - n..];
      assert s == front + back;
      LastGroup(n, front, back);
      GroupsAreFull(n, front);
      JoinLast(GroupFromRight(n, front), back);
      JoinedSize(n, front);
    }
  }

  lemma {:induction false} JoinedInGroups(n: nat, s: string, k: nat)
    requires (n == 3 || n == 4) && |s| > 0
    ensures StandsInGroups(n, Join(GroupFromRight(n, s)), s, k)
    decreases |s|
  {
    hide GroupFromRight, Join, Separators, IsSeparator, StandsInGroups;
    if |s| <= n {
      OnlyGroup(n, s);
      JoinOne(s);
      InLastGroup(n, s, k);
    } else {
      var front, back := s[..|s| - n], s[|s| - n..];
      assert s == front + back;
      LastGroup(n, front, back);
      GroupsAreFull(n, front);
      JoinLast(GroupFromRight(n, front), back);
      var f := Join(GroupFromRight(n, front));
      if k <= n {
        BehindGroup(n, f, front, back, k);
      } else {
        JoinedInGroups(n, front, k - (n + 1));
        InFrontGroups(n, f, front, back, k);
      }
    }
  }

  lemma InLastGroup(n: nat, back: string, k: nat)
    requires |back| <= n
    ensures StandsInGroups(n, back, back, k)
  {
    if k < |back| {
      SmallQuotient(n, k);
    }
  }

  lemma SmallQuotient(n: nat, k: nat)
    ensures k < n ==> Separators(n, k) == 0 && !IsSeparator(n, k)
    ensures IsSeparator(n, n)
  {
    if k < n {
      assert k / (n + 1) == 0 && k % (n + 1) == k;
    }
  }

  lemma BehindGroup(n: nat, f: string, front: string, back: string, k: nat)
    requires |back| == n && k <= n
    ensures StandsInGroups(n, f + ['\''] + back, front + back, k)
  {
    hide Separators, IsSeparator;
    SmallQuotient(n, k);
    var j := f + ['\''] + back;
    assert k < n ==> j[|j| - 1 - k] == back[n - 1 - k];
    assert k == n ==> j[|j| - 1 - k] == '\'';
  }

  lemma InFrontGroups(n: nat, f: string, front: string, back: string, k: nat)
    requires (n == 3 || n == 4) && |back| == n && k > n && StandsInGroups(n, f, front, k - (n + 1))
    ensures StandsInGroups(n, f + ['\''] + back, front + back, k)
  {
    hide Separators, IsSeparator;
    OneGroupMore(n, k);
    var j := f + ['\''] + back;
    assert k < |j| ==> j[|j| - 1 - k] == f[|f| - 1 - (k - (n + 1))];
  }

  lemma OneGroupMore(n: nat, k: nat)
    requires (n == 3 || n == 4) && k > n
    ensures IsSeparator(n, k - (n + 1)) <==> IsSeparator(n, k)
    ensures Separators(n, k - (n + 1)) == Separators(n, k) - 1
  {
    OneGroup(n, k);
  }

  lemma BreaksOfMore(n: nat, m: nat)
    requires (n == 3 || n == 4) && m > 0
    ensures Breaks(n, m) == if m <= n then 0 else Breaks(n, m - n) + 1
  {
  }

  lemma OneGroup(n: nat, k: nat)
    requires n == 3 || n == 4
    ensures k > n ==> (k - (n + 1)) % (n + 1) == k % (n + 1) && (k - (n + 1)) / (n + 1) == k / (n + 1) - 1
  {
  }

  lemma JoinOne(s: string)
    ensures Join([s]) == s
  {
  }

  /** An amount is printed when it consists of digits and separators, with at least one digit. */
  lemma {:induction false} AmountsPrinted(text: string)
    ensures ToAmount(text).Ok? <==>
      && (forall c | c in text :: c == '\'' || c in "0123456789")
      && exists c :: c in text && c in "0123456789"
  {
    hide IsDigit;
    var digits := RemoveQuotes(text);
    AmountGroupsByThree(text);
    CharsLeft(text);
    forall c
      ensures IsDigit(c) <==> c in "0123456789"
    {
      DigitsAre(c);
    }
    if |digits| > 0 && AllIn(IsDigit, digits, 0, |digits|) {
      assert digits[0] in digits && digits[0] in text;
    }
  }

  /** Taking separators out leaves all other characters, in their order. */
  lemma {:induction false} CharsLeft(s: string)
    ensures forall c :: c in RemoveQuotes(s) <==> c in s && c != '\''
    ensures forall a: string, b: string | s == a + ['\''] + b :: RemoveQuotes(s) == RemoveQuotes(a) + RemoveQuotes(b)
    ensures '\'' !in s ==> RemoveQuotes(s) == s
  {
    RemoveQuotesFacts(s);
    OnlyQuote();
    forall a: string, b: string | s == a + ['\''] + b
      ensures RemoveQuotes(s) == RemoveQuotes(a) + RemoveQuotes(b)
    {
      RemoveQuotesConcat(a + ['\''], b);
      RemoveQuotesConcat(a, ['\'']);
    }
    if |s| != 0 {
      CharsLeft(s[1..]);
      assert s == [s[0]] + s[1..];
    }
  }

  lemma DigitsAre(c: char)
    ensures IsDigit(c) <==> c in "0123456789"
  {
    if IsDigit(c) {
      assert c == "0123456789"[c as int - '0' as int];
    }
  }

  lemma {:induction false} WordCharactersAre(c: char)
    ensures IsWord(c) <==> || c == '_' || c in "0123456789"
                           || c in "abcdefghijklmnopqrstuvwxyz" || c in "ABCDEFGHIJKLMNOPQRSTUVWXYZ"
  {
    DigitsAre(c);
    SmallLettersAre(c);
    CapitalLettersAre(c);
  }

  lemma SmallLetterAt(i: nat)
    requires i < 26
    ensures "abcdefghijklmnopqrstuvwxyz"[i] == 'a' + (i as char)
  {
  }

  lemma SmallLettersAre(c: char)
    ensures 'a' <= c <= 'z' <==> c in "abcdefghijklmnopqrstuvwxyz"
  {
    var all := "abcdefghijklmnopqrstuvwxyz";
    assert |all| == 26;
    if 'a' <= c <= 'z' {
      SmallLetterAt(c as int - 'a' as int);
    }
    if i :| 0 <= i < |all| && all[i] == c {
      SmallLetterAt(i);
    }
  }

  lemma CapitalLetterAt(i: nat)
    requires i < 26
    ensures "ABCDEFGHIJKLMNOPQRSTUVWXYZ"[i] == 'A' + (i as char)
  {
  }

  lemma CapitalLettersAre(c: char)
    ensures 'A' <= c <= 'Z' <==> c in "ABCDEFGHIJKLMNOPQRSTUVWXYZ"
  {
    var all := "ABCDEFGHIJKLMNOPQRSTUVWXYZ";
    assert |all| == 26;
    if 'A' <= c <= 'Z' {
      CapitalLetterAt(c as int - 'A' as int);
    }
    if i :| 0 <= i < |all| && all[i] == c {
      CapitalLetterAt(i);
    }
  }

  /** A leading "0x" is no part of the simple form, but of every printed form, and only the empty text is printed
      as the empty text. */
  lemma {:induction false} PrefixOfHex(text: string)
    ensures ToHex(text) == "" <==> text == ""
    ensures text != "" ==> "0x" <= ToHex(text)
    ensures var plain := RemoveQuotes(text);
      ToSimpleHex(text) == if |plain| >= 2 && plain[0] == '0' && plain[1] == 'x' then plain[2..] else plain
  {
    var plain := RemoveQuotes(text);
    assert "0x" <= plain <==> |plain| >= 2 && plain[0] == '0' && plain[1] == 'x';
  }
}
