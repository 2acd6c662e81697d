// What an erasure does, told from the command and the rows alone: who the person
// is, which texts mention them, and what is left of each row.
module ErasurePlainly {
  import opened Options
  import opened Text
  import opened Erasure
  import opened ErasureProofs
  import opened ErasureDone
  import opened ErasureExact
  import opened ErasureResults
  import opened ErasureNames
  import opened ErasureCompletes

  // ---- Full names ----------------------------------------------------------

  /** Words with white space before, between and after them. */
  function Spaced(words: seq<string>, gaps: seq<string>): (r: string)
    requires |gaps| == |words| + 1
  {
    if words == [] then gaps[0] else gaps[0] + (words[0] + Spaced(words[1..], gaps[1..]))
  }

  function OneLine(words: seq<string>): (r: string) {
    if words == [] then "" else if |words| == 1 then words[0] else words[0] + (" " + OneLine(words[1..]))
  }

  predicate IsWord(w: string) {
    w != "" && forall i | 0 <= i < |w| :: !IsBlank(w[i])
  }

  predicate AreWords(words: seq<string>) {
    forall i | 0 <= i < |words| :: IsWord(words[i])
  }

  /** White space only, and some of it between two words. */
  predicate AreGaps(gaps: seq<string>) {
    && (forall i | 0 <= i < |gaps| :: AllOf(gaps[i], IsBlank))
    && (forall i | 1 <= i < |gaps| - 1 :: gaps[i] != "")
  }

  /** A text is a name's full name: its words on one line, in lower case, two of
      them or more; the stand-in's is no one's. */
  ghost predicate IsFullNameOf(text: string, name: string) {
    && text != Lower(DELETED_NAME)
    && exists words, gaps | |words| >= 2 && |gaps| == |words| + 1 && AreWords(words) && AreGaps(gaps) ::
         name == Spaced(words, gaps) && text == Lower(OneLine(words))
  }

  lemma {:induction false} CollapsedGap(gap: string, rest: string)
    requires AllOf(gap, IsBlank) && (rest != "" ==> !IsBlank(rest[0]))
    ensures Collapsed(gap + rest) == (if gap == "" then "" else " ") + Collapsed(rest)
  {
    if gap == "" {
      assert gap + rest == rest && "" + Collapsed(rest) == Collapsed(rest);
    } else {
      var s := gap + rest;
      assert s[0] == gap[0] && s[1..] == gap[1..] + rest;
      CollapsedGap(gap[1..], rest);
      if |gap| > 1 {
        assert s[1] == gap[1];
      } else {
        assert gap[1..] + rest == rest;
        assert |s| > 1 ==> s[1] == rest[0];
      }
    }
  }

  lemma {:induction false} CollapsedWord(w: string, rest: string)
    requires forall i | 0 <= i < |w| :: !IsBlank(w[i])
    ensures Collapsed(w + rest) == w + Collapsed(rest)
  {
    if w == "" {
      assert w + rest == rest && "" + Collapsed(rest) == Collapsed(rest);
    } else {
      assert (w + rest)[1..] == w[1..] + rest;
      CollapsedWord(w[1..], rest);
      assert [w[0]] + (w[1..] + Collapsed(rest)) == w + Collapsed(rest);
    }
  }

  function Edge(gap: string): (r: string) {
    if gap == "" then "" else " "
  }

  lemma GapAndWordCollapse(gap: string, word: string, rest: string)
    requires AllOf(gap, IsBlank) && IsWord(word)
    ensures Collapsed(gap + (word + rest)) == Edge(gap) + (word + Collapsed(rest))
  {
    hide Collapsed, AllOf;
    assert (word + rest)[0] == word[0];
    CollapsedGap(gap, word + rest);
    CollapsedWord(word, rest);
  }

  lemma LastGapCollapses(gap: string)
    requires AllOf(gap, IsBlank)
    ensures Collapsed(gap) == Edge(gap)
  {
    hide Collapsed, AllOf;
    assert gap + "" == gap && Edge(gap) + "" == Edge(gap);
    CollapsedGap(gap, "");
    NothingCollapses();
  }

  lemma {:induction false} SpacedCollapses(words: seq<string>, gaps: seq<string>)
    requires |gaps| == |words| + 1 && words != [] && AreWords(words) && AreGaps(gaps)
    ensures Collapsed(Spaced(words, gaps)) == Edge(gaps[0]) + OneLine(words) + Edge(gaps[|words|])
  {
    hide Collapsed, Edge;
    var rest := Spaced(words[1..], gaps[1..]);
    GapAndWordCollapse(gaps[0], words[0], rest);
    var first, last := Edge(gaps[0]), Edge(gaps[|words|]);
    if |words| == 1 {
      LastGapCollapses(gaps[1]);
      assert rest == gaps[1];
      assert first + (words[0] + last) == first + words[0] + last;
    } else {
      SpacedCollapses(words[1..], gaps[1..]);
      MiddleEdge(gaps[1]);
      var tail := OneLine(words[1..]);
      assert first + (words[0] + (" " + tail + last)) == first + (words[0] + (" " + tail)) + last;
    }
  }

  lemma MiddleEdge(gap: string)
    requires gap != ""
    ensures Edge(gap) == " "
  {
  }

  lemma {:induction false} OneLineEnds(words: seq<string>)
    requires words != [] && AreWords(words)
    ensures var s := OneLine(words); s != "" && !IsBlank(s[0]) && !IsBlank(s[|s| - 1])
    ensures ' ' in OneLine(words) <==> |words| >= 2
  {
    assert IsWord(words[0]);
    if |words| > 1 {
      OneLineEnds(words[1..]);
      var tail := " " + OneLine(words[1..]);
      assert (words[0] + tail)[|words[0]|] == ' ';
    }
  }

  lemma EdgesAreTrimmed(left: string, s: string, right: string)
    requires s != "" && !IsBlank(s[0]) && !IsBlank(s[|s| - 1])
    ensures Btrim(Edge(left) + s + Edge(right)) == s
  {
    hide TrimLeft, TrimRight, Trim;
    assert AllOf(Edge(left), IsSpace) && AllOf(Edge(right), IsSpace);
    TrimPads(Edge(left), s, Edge(right), IsSpace);
    assert Btrim(s) == s;
  }

  lemma SpacedIsFull(words: seq<string>, gaps: seq<string>)
    requires |gaps| == |words| + 1 && words != [] && AreWords(words) && AreGaps(gaps)
    ensures FullName(Spaced(words, gaps)) == Lower(OneLine(words))
  {
    hide Collapsed, Btrim, Spaced, OneLine, AreWords, AreGaps, Edge;
    SpacedCollapses(words, gaps);
    OneLineEnds(words);
    EdgesAreTrimmed(gaps[0], OneLine(words), gaps[|words|]);
  }

  /** Every name is some words with white space around them. */
  lemma {:induction false} Split(name: string) returns (words: seq<string>, gaps: seq<string>)
    ensures |gaps| == |words| + 1 && AreWords(words) && AreGaps(gaps) && name == Spaced(words, gaps)
  {
    if name == "" {
      words, gaps := [], [""];
    } else {
      var w, g := Split(name[1..]);
      assert name == [name[0]] + name[1..];
      if IsBlank(name[0]) {
        words, gaps := w, [[name[0]] + g[0]] + g[1..];
        assert gaps[1..] == g[1..];
      } else if g[0] == "" && w != [] {
        words, gaps := [[name[0]] + w[0]] + w[1..], g;
        assert words[1..] == w[1..];
        assert forall i | 1 <= i < |words| :: IsWord(w[i]);
      } else {
        words, gaps := [[name[0]]] + w, [""] + g;
        assert words[1..] == w && gaps[1..] == g;
        assert forall i | 1 <= i < |words| :: words[i] == w[i - 1];
      }
    }
  }

  lemma NoWordsNoName(gaps: seq<string>)
    requires |gaps| == 1 && AreGaps(gaps)
    ensures ' ' !in FullName(Spaced([], gaps))
  {
    hide Btrim, Collapsed;
    assert AllOf(gaps[0], IsBlank);
    assert gaps[0] + "" == gaps[0];
    CollapsedGap(gaps[0], "");
    NothingCollapses();
    var s := Edge(gaps[0]);
    assert Collapsed(gaps[0]) == s + "" == s;
    EdgeIsTrimmed(gaps[0]);
  }

  lemma NothingCollapses()
    ensures Collapsed("") == ""
  {
  }

  lemma EdgeIsTrimmed(gap: string)
    ensures Btrim(Edge(gap)) == ""
  {
  }

  lemma LowerKeepsBlanks(s: string)
    ensures ' ' in Lower(s) <==> ' ' in s
  {
    if i :| 0 <= i < |s| && s[i] == ' ' {
      assert Lower(s)[i] == ' ';
    }
    if i :| 0 <= i < |s| && Lower(s)[i] == ' ' {
      assert s[i] == ' ';
    }
  }

  /** What is searched for of a name is its full name, and nothing else. */
  lemma FullNameExactly(text: string, name: string)
    ensures IsFullNameOf(text, name) <==> text == FullName(name) && IsSearchable(text)
  {
    hide FullName, Spaced, OneLine, AreWords, AreGaps, Lower;
    if words, gaps :| |words| >= 2 && |gaps| == |words| + 1 && AreWords(words) && AreGaps(gaps)
                      && name == Spaced(words, gaps) && text == Lower(OneLine(words)) {
      SpacedIsFull(words, gaps);
      OneLineEnds(words);
      LowerKeepsBlanks(OneLine(words));
    }
    if text == FullName(name) && IsSearchable(text) {
      var words, gaps := Split(name);
      if words == [] {
        NoWordsNoName(gaps);
      } else {
        SpacedIsFull(words, gaps);
        OneLineEnds(words);
        LowerKeepsBlanks(OneLine(words));
      }
    }
  }

  // ---- Who they are --------------------------------------------------------

  /** One of the command's addresses, in any case. */
  predicate IsTheirAddress(c: Command, address: string) {
    exists x | x in c.emails :: Lower(address) == Lower(x)
  }

  predicate WentTo(c: Command, q: QueueRow) {
    IsTheirAddress(c, q.email) || q.sub == Some(c.subject)
  }

  lemma AddressesPlainly(c: Command, address: string)
    requires IsCommand(c)
    ensures Lower(address) in Emails(c) <==> IsTheirAddress(c, address)
  {
    hide Btrim, Lower;
    forall x | x in c.emails
      ensures Btrim(x) == x && x != ""
    {
      AddressIsWhole(x);
    }
  }

  lemma TheirsPlainly(c: Command, t: Tables)
    requires IsCommand(c)
    ensures forall address :: Lower(address) in LookOf(t, c).emails <==> IsTheirAddress(c, address)
    ensures forall q :: Theirs(LookOf(t, c), q) <==> WentTo(c, q)
  {
    hide Lower, IsCommand, Emails, Needles, IsTheirAddress;
    forall address
      ensures Lower(address) in LookOf(t, c).emails <==> IsTheirAddress(c, address)
    {
      AddressesPlainly(c, address);
    }
  }

  /** A name on a row of theirs, table by table. */
  predicate IsNamed(t: Tables, c: Command, name: string) {
    || (exists k | k in t.recipients :: t.recipients[k].name == name && IsTheirAddress(c, t.recipients[k].email))
    || (exists k | k in t.queue :: t.queue[k].name == name && WentTo(c, t.queue[k]))
    || (exists k | k in t.people :: t.people[k].name == name && IsTheirAddress(c, t.people[k].email))
    || (exists k | k in t.sourcePeople :: t.sourcePeople[k].name == name && IsTheirAddress(c, t.sourcePeople[k].email))
    || (exists k | k in t.approvals ::
          t.approvals[k].submitterName == Some(name) && t.approvals[k].submitter == c.subject)
    || (exists k | k in t.approvalEvents ::
          t.approvalEvents[k].actorName == Some(name) && t.approvalEvents[k].actor == Some(c.subject))
    || (exists k | k in t.versions :: t.versions[k].name == Some(name) && t.versions[k].sub == Some(c.subject))
    || (exists k | k in t.sensitiveChanges ::
          t.sensitiveChanges[k].name == Some(name) && t.sensitiveChanges[k].sub == Some(c.subject))
    || (exists k | k in t.contentViews ::
          t.contentViews[k].name == Some(name) && t.contentViews[k].sub == Some(c.subject))
  }

  lemma NamedPlainly(t: Tables, c: Command, name: string)
    requires IsCommand(c)
    ensures IsHeld(t, c.subject, Emails(c), name) <==> IsNamed(t, c, name)
  {
    hide Lower, IsCommand, Emails, IsTheirAddress;
    forall address
      ensures Lower(address) in Emails(c) <==> IsTheirAddress(c, address)
    {
      AddressesPlainly(c, address);
    }
  }

  /** A text that stands for the person: an address of theirs in any case, or
      the full name of a row of theirs in any case. */
  ghost predicate IsThem(t: Tables, c: Command, s: string) {
    IsTheirAddress(c, s) || exists name :: IsNamed(t, c, name) && IsFullNameOf(Lower(s), name)
  }

  /** What is searched for is exactly what stands for them. */
  lemma NeedlesPlainly(t: Tables, c: Command, s: string)
    requires IsCommand(c)
    ensures Lower(s) in LookOf(t, c).needles <==> IsThem(t, c, s)
  {
    hide Lower, IsCommand, Emails, IsTheirAddress, IsNamed, IsHeld, FullName, IsSearchable, IsFullNameOf, Needles;
    NeedlesExactly(t, c.subject, Emails(c), Lower(s));
    AddressesPlainly(c, s);
    forall name
      ensures IsHeld(t, c.subject, Emails(c), name) <==> IsNamed(t, c, name)
      ensures IsFullNameOf(Lower(s), name) <==> Lower(s) == FullName(name) && IsSearchable(Lower(s))
    {
      NamedPlainly(t, c, name);
      FullNameExactly(Lower(s), name);
    }
  }

  /** A text with such a text anywhere in it. */
  ghost predicate Mentions(t: Tables, c: Command, text: string) {
    exists i, j | 0 <= i <= j <= |text| :: IsThem(t, c, text[i..j])
  }

  lemma NeedlesAreLower(t: Tables, c: Command, needle: string)
    requires needle in LookOf(t, c).needles
    ensures Lower(needle) == needle
  {
    hide IsHeld, AllNames, Btrim, Collapsed, IsSearchable;
  }

  lemma LowerOfPart(text: string, i: nat, j: nat)
    requires i <= j <= |text|
    ensures Lower(text)[i..j] == Lower(text[i..j])
  {
  }

  /** Texts that name the person are exactly those that mention them. */
  lemma NamesPlainly(t: Tables, c: Command, text: string)
    requires IsCommand(c)
    ensures Names(LookOf(t, c), text) <==> Mentions(t, c, text)
  {
    hide Lower, IsCommand, Emails, IsThem, LookOf;
    var l := LookOf(t, c);
    if needle :| needle in l.needles && Contains(Lower(text), needle) {
      var i :| 0 <= i <= |text| && OccursAt(Lower(text), needle, i);
      LowerOfPart(text, i, i + |needle|);
      NeedlesPlainly(t, c, text[i..i + |needle|]);
    }
    if i, j :| 0 <= i <= j <= |text| && IsThem(t, c, text[i..j]) {
      LowerOfPart(text, i, j);
      NeedlesPlainly(t, c, text[i..j]);
      assert OccursAt(Lower(text), Lower(text[i..j]), i);
    }
  }

  lemma AllNamesPlainly(t: Tables, c: Command)
    requires IsCommand(c)
    ensures forall text :: Names(LookOf(t, c), text) <==> Mentions(t, c, text)
    ensures !Mentions(t, c, "")
  {
    hide Names, Mentions, LookOf, IsCommand;
    forall text
      ensures Names(LookOf(t, c), text) <==> Mentions(t, c, text)
    {
      NamesPlainly(t, c, text);
    }
    CommandLooks(t, c);
    Constants(LookOf(t, c));
  }

  lemma HeldIsMentioned(t: Tables, c: Command, before: string, s: string, after: string)
    requires IsThem(t, c, s)
    ensures Mentions(t, c, before + s + after)
  {
    hide IsThem;
    assert (before + s + after)[|before|..|before| + |s|] == s;
  }
}
