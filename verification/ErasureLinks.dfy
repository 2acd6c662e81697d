// Tracked links: which of those that have the person written in them lose
// their address, however it is written.
module ErasureLinks {
  import opened Options
  import opened Text
  import opened Erasure
  import opened ErasureProofs
  import opened ErasureExact

  /** A text written inside a link, each byte of it as it is, as %XX or, in a
      query, a blank as '+', whatever is written before and after. */
  predicate IsWrittenIn(link: string, before: string, text: string, ways: seq<Written>, after: string, plus: bool) {
    && |ways| == |text|
    && (forall i | 0 <= i < |text| :: IsWritten(text[i], ways[i], plus))
    && link == before + (Escaped(text, ways) + after)
    && !EndsInsideEscape(before)
  }

  lemma WrittenIsContained(link: string, before: string, text: string, ways: seq<Written>, after: string, plus: bool)
    requires IsWrittenIn(link, before, text, ways, after, plus) && WellEscaped(link)
    ensures Unescape(link, plus).Some? && Contains(Lower(Unescape(link, plus).value), Lower(text))
  {
    hide Unescape, Escaped, IsWritten, WellEscaped, EndsInsideEscape;
    EscapedIsRead(text, ways, plus);
    EscapedInParts(before, Escaped(text, ways) + after);
    UnescapesExactly(before, plus);
    UnescapesExactly(Escaped(text, ways) + after, plus);
    UnescapeJoins(before, Escaped(text, ways) + after, plus);
    UnescapeJoins(Escaped(text, ways), after, plus);
    var b, a := Unescape(before, plus).value, Unescape(after, plus).value;
    var whole := b + (text + a);
    assert Unescape(link, plus) == Some(whole);
    assert OccursAt(Lower(whole), Lower(text), |b|) by {
      assert Lower(whole)[|b|..|b| + |text|] == Lower(text);
    }
  }

  /** Whether a link holds a needle as it stands. */
  predicate PlainlyNames(url: string, needles: set<string>) {
    exists needle | needle in needles && needle != "" :: Contains(Lower(url), Lower(needle))
  }

  lemma NamesPlainly(url: string, needles: set<string>)
    ensures PlainlyNames(url, needles) ==> LinkNames(url, needles)
    ensures LinkNames(url, needles) && !WellEscaped(url) ==> PlainlyNames(url, needles)
  {
    hide Unescape, Contains, Lower, WellEscaped;
    UnescapesExactly(url, true);
    UnescapesExactly(url, false);
  }

  /** A name or an address written in a link in any way and any case is found
      exactly when the whole link can be unescaped or the link holds a needle
      as it stands: one '%' that begins no escape, anywhere in it, hides what
      is encoded. */
  lemma WrittenIsFoundExactly(link: string, before: string, text: string, ways: seq<Written>, after: string, plus: bool,
                              needles: set<string>)
    requires IsWrittenIn(link, before, text, ways, after, plus)
    requires exists needle | needle in needles :: needle != "" && Lower(needle) == Lower(text)
    ensures LinkNames(link, needles) <==> WellEscaped(link) || PlainlyNames(link, needles)
  {
    hide Unescape, Escaped, IsWritten, Contains, IsWrittenIn, Lower, WellEscaped, PlainlyNames, LinkNames;
    NamesPlainly(link, needles);
    if WellEscaped(link) {
      WrittenIsContained(link, before, text, ways, after, plus);
      DecodedNames(link, text, plus, needles);
    }
  }

  lemma DecodedNames(link: string, text: string, plus: bool, needles: set<string>)
    requires Unescape(link, plus).Some? && Contains(Lower(Unescape(link, plus).value), Lower(text))
    requires exists needle | needle in needles :: needle != "" && Lower(needle) == Lower(text)
    ensures LinkNames(link, needles)
  {
    hide Unescape, Contains, Lower;
    var needle :| needle in needles && needle != "" && Lower(needle) == Lower(text);
  }

  /** Once a receipt is written, a link that had the person written in it in any
      way has lost its address exactly when only mail to them had it, when it
      could be unescaped, or when it held a needle as it stood; else it is as
      it was. */
  lemma WrittenLinkIsClearedExactly(db: Db, c: Command, at: int, id: Id, before: string, text: string,
                                    ways: seq<Written>, after: string, plus: bool)
    requires IsCommand(c) && c.request !in db.receipts && Erase(db, c, at).1.Completed?
    requires id in db.tables.links && db.tables.links[id].url.Some?
    requires IsWrittenIn(db.tables.links[id].url.value, before, text, ways, after, plus)
    requires exists needle | needle in LookOf(db.tables, c).needles :: needle != "" && Lower(needle) == Lower(text)
    ensures var link, l := db.tables.links[id], LookOf(db.tables, c);
            var left := Erase(db, c, at).0.tables.links;
            && id in left
            && left[id] ==
                 if Alone(db.tables, l, link.task) || WellEscaped(link.url.value)
                    || PlainlyNames(link.url.value, l.needles)
                 then Link(link.task, None, true)
                 else link
  {
    hide Erase, LookOf, IsWrittenIn, LinkNames, IsCommand, Lower, WellEscaped, PlainlyNames, Alone;
    WrittenIsFoundExactly(db.tables.links[id].url.value, before, text, ways, after, plus, LookOf(db.tables, c).needles);
    LinksAreLeft(db, c, at);
  }

  lemma LinksAreLeft(db: Db, c: Command, at: int)
    requires IsCommand(c) && c.request !in db.receipts && Erase(db, c, at).1.Completed?
    ensures Erase(db, c, at).0.tables.links == LinksLeft(db.tables, LookOf(db.tables, c))
  {
    hide Erase, LookOf, IsCommand, LinksLeft;
    ErasureIsExact(db, c, at);
  }
}
