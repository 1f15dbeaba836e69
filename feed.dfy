/** main.py: deciding whether an upstream document is an RSS or an Atom feed,
    and rewriting it in place, which appends " (filtered)" to the feed title
    and removes the entries an entry test picks. The document is a `Document`
    object whose `root` its methods replace; the pure functions beside it
    say what each step leaves behind. */
module Feed {
  import opened Python
  import opened Xml

  const RssContentType: string := "application/rss+xml"
  const AtomContentType: string := "application/atom+xml"
  const FilteredSuffix: string := " (filtered)"

  /** What `modifyRss` raises when the root has no `channel` child. */
  const MissingChannel: Exception := Exception("Missing channel element")

  // ---------------------------------------------------------------------
  // Detection and dispatch
  // ---------------------------------------------------------------------

  /** `detectRss`: the RSS content type, or else a root tagged exactly `rss`. */
  predicate DetectRss(contentType: string, root: Element)
  {
    contentType in [RssContentType] || root.tag == "rss"
  }

  /** `detectAtom`: the Atom content type, or else a root tagged exactly `feed`. */
  predicate DetectAtom(contentType: string, root: Element)
  {
    contentType in [AtomContentType] || root.tag == "feed"
  }

  datatype FeedKind = Rss | Atom | Unknown

  /** The branch `handleHttp` takes: RSS is tried before Atom. */
  function Classify(contentType: string, root: Element): (k: FeedKind)
    ensures k == Rss <==> DetectRss(contentType, root)
    ensures k == Atom <==> !DetectRss(contentType, root) && DetectAtom(contentType, root)
  {
    if DetectRss(contentType, root) then Rss
    else if DetectAtom(contentType, root) then Atom
    else Unknown
  }

  /** A document is passed through exactly when neither its content type nor
      its root tag names a feed format. */
  lemma UnknownExactly(contentType: string, root: Element)
    ensures Classify(contentType, root) == Unknown <==>
              contentType != RssContentType && contentType != AtomContentType &&
              root.tag != "rss" && root.tag != "feed"
  {
  }

  /** The RSS content type wins over any root, including an Atom `feed` root,
      and an `rss` root wins over the Atom content type. */
  lemma RssTakesPrecedence(root: Element, contentType: string)
    ensures Classify(RssContentType, root) == Rss
    ensures Classify(contentType, root.(tag := "rss")) == Rss
  {
  }

  /** The detection cases of test_main.py that the code agrees with. */
  lemma DetectionExamples()
    ensures DetectRss("application/xml", Element("rss", None, [])) &&
            !DetectAtom("application/xml", Element("rss", None, []))
    ensures !DetectRss("application/xml", Element("feed", None, [])) &&
            DetectAtom("application/xml", Element("feed", None, []))
    ensures DetectRss(RssContentType, Element("mystery", None, [])) &&
            !DetectAtom(RssContentType, Element("mystery", None, []))
    ensures !DetectRss(AtomContentType, Element("mystery", None, [])) &&
            DetectAtom(AtomContentType, Element("mystery", None, []))
    ensures Classify("text/html", Element("html", None, [])) == Unknown
  {
  }

  /** A root in the Atom namespace is tagged `{http://www.w3.org/2005/Atom}feed`,
      which exact comparison does not take for `feed`: with a generic content
      type such a document is not detected as Atom. */
  lemma NamespacedAtomRootNotDetected()
    ensures !DetectAtom("application/xml", Element("{http://www.w3.org/2005/Atom}feed", None, []))
    ensures Classify("application/xml", Element("{http://www.w3.org/2005/Atom}feed", None, [])) == Unknown
  {
  }

  // ---------------------------------------------------------------------
  // The title suffix
  // ---------------------------------------------------------------------

  /** The predicate "is tagged `containerTag` and has a `title` child". */
  function HoldsTitle(containerTag: string): Element -> bool
  {
    (c: Element) => c.tag == containerTag && Find(c, "title").Some?
  }

  /** Where `root.find(".//" + containerTag + "/title")` finds the title, read
      one level down: `(i, j)` is the first `title` child `j` of the first
      child `i` of the root that is tagged `containerTag` and has one. */
  function TitleSite(root: Element, containerTag: string): (r: Option<(nat, nat)>)
    ensures r.Some? ==> r.value.0 < |root.children| &&
                        root.children[r.value.0].tag == containerTag &&
                        r.value.1 < |root.children[r.value.0].children| &&
                        root.children[r.value.0].children[r.value.1].tag == "title"
    ensures r.Some? ==> forall k :: 0 <= k < r.value.1 ==> root.children[r.value.0].children[k].tag != "title"
    ensures r.Some? ==> forall k :: 0 <= k < r.value.0 ==> !HoldsTitle(containerTag)(root.children[k])
    ensures r.None? <==> forall k :: 0 <= k < |root.children| ==> !HoldsTitle(containerTag)(root.children[k])
  {
    match FirstWhere(root.children, HoldsTitle(containerTag))
    case None => None
    case Some(i) => Some((i, FindIndex(root.children[i].children, "title").value))
  }

  /** The text of the feed title, if there is a title. */
  function FeedTitle(root: Element, containerTag: string): Option<Option<string>>
  {
    match TitleSite(root, containerTag)
    case None => None
    case Some((i, j)) => Some(root.children[i].children[j].text)
  }

  /** `root` with the text of element `j` of child `i` replaced by `text`. */
  function WithGrandchildText(root: Element, i: nat, j: nat, text: Option<string>): Element
    requires i < |root.children| && j < |root.children[i].children|
  {
    var c := root.children[i];
    root.(children := root.children[i := c.(children := c.children[j := c.children[j].(text := text)])])
  }

  /** `title.text += " (filtered)"` on the title found, if any. With no title
      the document is left alone (the source logs a warning); a title element
      without text makes `+=` raise a TypeError. */
  function SuffixTitle(root: Element, containerTag: string): Result<Element>
  {
    match TitleSite(root, containerTag)
    case None => Ok(root)
    case Some((i, j)) =>
      match root.children[i].children[j].text
      case None => Raised(TypeError("unsupported operand type(s) for +=: 'NoneType' and 'str'"))
      case Some(s) => Ok(WithGrandchildText(root, i, j, Some(s + FilteredSuffix)))
  }

  /** The suffix is appended exactly once, to the title `find` returns, and
      `find` returns the same title element afterwards; every other element
      of the document is as it was. */
  lemma {:induction false} SuffixTitleOnce(root: Element, containerTag: string, s: string)
    requires FeedTitle(root, containerTag) == Some(Some(s))
    ensures SuffixTitle(root, containerTag).Ok?
    ensures var r := SuffixTitle(root, containerTag).value;
            TitleSite(r, containerTag) == TitleSite(root, containerTag) &&
            FeedTitle(r, containerTag) == Some(Some(s + FilteredSuffix))
    ensures var r := SuffixTitle(root, containerTag).value;
            var (i, j) := TitleSite(root, containerTag).value;
            r.tag == root.tag && r.text == root.text && |r.children| == |root.children| &&
            (forall k :: 0 <= k < |r.children| && k != i ==> r.children[k] == root.children[k]) &&
            r.children[i].tag == root.children[i].tag && r.children[i].text == root.children[i].text &&
            |r.children[i].children| == |root.children[i].children| &&
            (forall m :: 0 <= m < |r.children[i].children| && m != j ==>
               r.children[i].children[m] == root.children[i].children[m]) &&
            r.children[i].children[j] == root.children[i].children[j].(text := Some(s + FilteredSuffix))
  {
    var (i, j) := TitleSite(root, containerTag).value;
    var r := WithGrandchildText(root, i, j, Some(s + FilteredSuffix));
    assert SuffixTitle(root, containerTag) == Ok(r);
    SiteSurvivesTextChange(root, containerTag, i, j, Some(s + FilteredSuffix));
  }

  /** Changing the text of the title found does not move the title `find`
      returns. */
  lemma {:induction false} SiteSurvivesTextChange(root: Element, containerTag: string, i: nat, j: nat, text: Option<string>)
    requires TitleSite(root, containerTag) == Some((i, j))
    ensures TitleSite(WithGrandchildText(root, i, j, text), containerTag) == Some((i, j))
  {
    var r := WithGrandchildText(root, i, j, text);
    var p := HoldsTitle(containerTag);
    assert r.children[i].children[j].tag == "title";
    assert p(r.children[i]);
    forall k | 0 <= k < i ensures !p(r.children[k]) {
      assert r.children[k] == root.children[k];
    }
    assert FirstWhere(r.children, p) == Some(i);
    forall k | 0 <= k < j ensures r.children[i].children[k].tag != "title" {
      assert r.children[i].children[k] == root.children[i].children[k];
    }
    assert FindIndex(r.children[i].children, "title") == Some(j);
  }

  /** Without a title to find, the document is untouched: no child of the root
      is a container holding a `title` (there may be containers without one). */
  lemma NoTitleNoChange(root: Element, containerTag: string)
    requires forall k :: 0 <= k < |root.children| ==> !HoldsTitle(containerTag)(root.children[k])
    ensures SuffixTitle(root, containerTag) == Ok(root)
  {
  }

  /** The title rewrite of test_main.py:61-67. */
  lemma RssTitleExample()
    ensures SuffixTitle(Element("rss", None, [Element("channel", None, [Element("title", Some("foo"), [])])]), "channel")
            == Ok(Element("rss", None, [Element("channel", None, [Element("title", Some("foo (filtered)"), [])])]))
  {
    var root := Element("rss", None, [Element("channel", None, [Element("title", Some("foo"), [])])]);
    var title := Element("title", Some("foo" + FilteredSuffix), []);
    assert FindIndex(root.children[0].children, "title") == Some(0);
    assert HoldsTitle("channel")(root.children[0]);
    assert TitleSite(root, "channel") == Some((0, 0));
    assert root.children[0].children[0 := title] == [title];
    assert root.children[0 := root.children[0].(children := [title])] == [Element("channel", None, [title])];
    assert "foo" + FilteredSuffix == "foo (filtered)";
  }

  // ---------------------------------------------------------------------
  // Entry removal
  // ---------------------------------------------------------------------

  /** Whether to remove an entry. A test may raise, which ends the removal
      loop and the whole rewrite. */
  type EntryTest = Element -> Result<bool>

  /** The test main.py applies: the entry has a `title` child and
      `title_match` occurs in its text. A title without text makes `in`
      raise a TypeError. */
  function TitleMatch(titleMatch: string): EntryTest
  {
    (e: Element) =>
      match Find(e, "title")
      case None => Ok(false)
      case Some(t) =>
        match t.text
        case None => Raised(TypeError("argument of type 'NoneType' is not iterable"))
        case Some(s) => Ok(In(titleMatch, s))
  }

  /** What `TitleMatch` decides, stated without the search: no title keeps
      the entry, a matching title removes it. */
  lemma TitleMatchMeaning(titleMatch: string, e: Element)
    ensures TitleMatch(titleMatch)(e).Raised? <==> Find(e, "title").Some? && Find(e, "title").value.text.None?
    ensures TitleMatch(titleMatch)(e) == Ok(true) <==>
              Find(e, "title").Some? && Find(e, "title").value.text.Some? &&
              exists k :: OccursAt(titleMatch, Find(e, "title").value.text.value, k)
  {
    var t := Find(e, "title");
    if t.Some? && t.value.text.Some? {
      InIffOccurs(titleMatch, t.value.text.value);
    }
  }

  /** Entry `c` is removed: it has the entry tag and the test says so. */
  predicate Removes(entryTag: string, test: EntryTest, c: Element)
  {
    c.tag == entryTag && test(c) == Ok(true)
  }

  /** Examining entry `c` raises. */
  predicate RaisesOn(entryTag: string, test: EntryTest, c: Element)
  {
    c.tag == entryTag && test(c).Raised?
  }

  /** The elements of `cs` satisfying `p`, in their order. */
  function Keep(cs: seq<Element>, p: Element -> bool): (r: seq<Element>)
    ensures |r| <= |cs|
  {
    if cs == [] then [] else (if p(cs[0]) then [cs[0]] else []) + Keep(cs[1..], p)
  }

  lemma {:induction false} KeepMembership(cs: seq<Element>, p: Element -> bool, x: Element)
    ensures x in Keep(cs, p) <==> x in cs && p(x)
  {
    if cs != [] {
      KeepMembership(cs[1..], p, x);
      assert cs == [cs[0]] + cs[1..];
    }
  }

  /** Keeping by `p` and then by `q` keeps by their conjunction `pq`. */
  lemma {:induction false} KeepKeep(cs: seq<Element>, p: Element -> bool, q: Element -> bool, pq: Element -> bool)
    requires forall k :: 0 <= k < |cs| ==> pq(cs[k]) == (p(cs[k]) && q(cs[k]))
    ensures Keep(Keep(cs, p), q) == Keep(cs, pq)
  {
    if cs != [] {
      KeepKeep(cs[1..], p, q, pq);
      var head := if p(cs[0]) then [cs[0]] else [];
      KeepAppend(head, Keep(cs[1..], p), q);
    }
  }

  lemma {:induction false} KeepAppend(a: seq<Element>, b: seq<Element>, p: Element -> bool)
    ensures Keep(a + b, p) == Keep(a, p) + Keep(b, p)
  {
    if a == [] {
      assert a + b == b;
    } else {
      assert (a + b)[0] == a[0];
      assert (a + b)[1..] == a[1..] + b;
      KeepAppend(a[1..], b, p);
      var head := if p(a[0]) then [a[0]] else [];
      assert head + (Keep(a[1..], p) + Keep(b, p)) == (head + Keep(a[1..], p)) + Keep(b, p);
    }
  }

  /** The predicate "survives the removal". */
  function Stays(entryTag: string, test: EntryTest): Element -> bool
  {
    (c: Element) => !Removes(entryTag, test, c)
  }

  /** The predicate "is not an entry". */
  function NotEntry(entryTag: string): Element -> bool
  {
    (c: Element) => c.tag != entryTag
  }

  /** The intended result of the removal loop: the children that are not
      removed, in their original order. */
  function Survivors(cs: seq<Element>, entryTag: string, test: EntryTest): seq<Element>
  {
    Keep(cs, Stays(entryTag, test))
  }

  /** A child survives exactly when it is not a removed entry. */
  lemma SurvivorsMembership(cs: seq<Element>, entryTag: string, test: EntryTest, x: Element)
    ensures x in Survivors(cs, entryTag, test) <==> x in cs && !Removes(entryTag, test, x)
  {
    KeepMembership(cs, Stays(entryTag, test), x);
  }

  /** Children that are not entries (the channel title, say) are all kept, in
      their original order. */
  lemma SurvivorsKeepOthers(cs: seq<Element>, entryTag: string, test: EntryTest)
    ensures Keep(Survivors(cs, entryTag, test), NotEntry(entryTag)) == Keep(cs, NotEntry(entryTag))
  {
    KeepKeep(cs, Stays(entryTag, test), NotEntry(entryTag), NotEntry(entryTag));
  }

  /** Removing again removes nothing more. */
  lemma SurvivorsIdempotent(cs: seq<Element>, entryTag: string, test: EntryTest)
    ensures Survivors(Survivors(cs, entryTag, test), entryTag, test) == Survivors(cs, entryTag, test)
  {
    KeepKeep(cs, Stays(entryTag, test), Stays(entryTag, test), Stays(entryTag, test));
  }

  /** A child put in front of a pass's result. */
  function Prepend(c: Element, pass: (seq<Element>, Result<()>)): (seq<Element>, Result<()>)
  {
    ([c] + pass.0, pass.1)
  }

  /** One pass of the removal loop over `cs`: each entry is tested in order
      and removed when the test says so. A raising test ends the pass; the
      removals already made stay made and the rest is left as it was. */
  function Filtered(cs: seq<Element>, entryTag: string, test: EntryTest): (seq<Element>, Result<()>)
  {
    if cs == [] then ([], Ok(()))
    else if cs[0].tag != entryTag then Prepend(cs[0], Filtered(cs[1..], entryTag, test))
    else match test(cs[0])
      case Raised(e) => (cs, Raised(e))
      case Ok(true) => Filtered(cs[1..], entryTag, test)
      case Ok(false) => Prepend(cs[0], Filtered(cs[1..], entryTag, test))
  }

  /** When no entry makes the test raise, the pass succeeds and leaves
      exactly the survivors. */
  lemma {:induction false} FilteredWithoutRaise(cs: seq<Element>, entryTag: string, test: EntryTest)
    requires forall k :: 0 <= k < |cs| ==> !RaisesOn(entryTag, test, cs[k])
    ensures Filtered(cs, entryTag, test) == (Survivors(cs, entryTag, test), Ok(()))
  {
    if cs != [] {
      FilteredWithoutRaise(cs[1..], entryTag, test);
      var rest := Survivors(cs[1..], entryTag, test);
      assert Survivors(cs, entryTag, test) == (if Stays(entryTag, test)(cs[0]) then [cs[0]] else []) + rest;
      assert [] + rest == rest;
    }
  }

  /** When entry `k` is the first to make the test raise, the pass raises its
      exception, the children before it are filtered and it and the children
      after it are left as they were. */
  lemma {:induction false} FilteredStopsAtRaise(cs: seq<Element>, entryTag: string, test: EntryTest, k: nat)
    requires k < |cs| && RaisesOn(entryTag, test, cs[k])
    requires forall m :: 0 <= m < k ==> !RaisesOn(entryTag, test, cs[m])
    ensures Filtered(cs, entryTag, test) == (Survivors(cs[..k], entryTag, test) + cs[k..], Raised(test(cs[k]).error))
  {
    if k == 0 {
      assert cs[..0] == [] && cs[0..] == cs;
      assert Survivors([], entryTag, test) + cs == cs;
    } else {
      FilteredStopsAtRaise(cs[1..], entryTag, test, k - 1);
      assert cs[1..][..k - 1] == cs[..k][1..];
      assert cs[1..][k - 1..] == cs[k..];
      assert cs[..k][0] == cs[0];
      var head := if Stays(entryTag, test)(cs[0]) then [cs[0]] else [];
      var rest := Survivors(cs[..k][1..], entryTag, test);
      assert Survivors(cs[..k], entryTag, test) == head + rest;
      assert head + (rest + cs[k..]) == (head + rest) + cs[k..];
      assert [] + (rest + cs[k..]) == rest + cs[k..];
      assert !RaisesOn(entryTag, test, cs[0]);
    }
  }

  /** The removal loop of `modifyRss` and `modifyAtom`, on the children of
      the removing parent: the entries are examined in order and a removed
      entry is cut out of `kept` where it stands. */
  method RemoveMatching(cs: seq<Element>, entryTag: string, test: EntryTest)
      returns (kept: seq<Element>, outcome: Result<()>)
    ensures (kept, outcome) == Filtered(cs, entryTag, test)
  {
    kept := cs;
    outcome := Ok(());
    var i := 0;
    assert kept[..0] + Filtered(cs, entryTag, test).0 == Filtered(cs, entryTag, test).0;
    assert kept[0..] == kept;
    while i < |kept|
      invariant 0 <= i <= |kept|
      invariant Filtered(cs, entryTag, test).0 == kept[..i] + Filtered(kept[i..], entryTag, test).0
      invariant Filtered(cs, entryTag, test).1 == Filtered(kept[i..], entryTag, test).1
      decreases |kept| - i
    {
      var c := kept[i];
      ghost var rest := kept[i..];
      assert rest[0] == c && rest[1..] == kept[i + 1..];
      if c.tag == entryTag {
        var verdict := test(c);
        if verdict.Raised? {
          assert Filtered(rest, entryTag, test) == (rest, Raised(verdict.error));
          assert kept[..i] + rest == kept;
          outcome := Raised(verdict.error);
          return;
        }
        if verdict.value {
          assert Filtered(rest, entryTag, test) == Filtered(kept[i + 1..], entryTag, test);
          var shorter := kept[..i] + kept[i + 1..];
          assert shorter[..i] == kept[..i] && shorter[i..] == kept[i + 1..];
          kept := shorter;
          continue;
        }
      }
      assert Filtered(rest, entryTag, test) == Prepend(c, Filtered(kept[i + 1..], entryTag, test));
      assert kept[..i + 1] == kept[..i] + [c];
      assert kept[..i] + ([c] + Filtered(kept[i + 1..], entryTag, test).0) ==
             kept[..i + 1] + Filtered(kept[i + 1..], entryTag, test).0;
      i := i + 1;
    }
    assert kept[..i] == kept && kept[i..] == [];
    assert kept[..i] + [] == kept;
  }

  /** The loop as written iterates with `iterfind` over the very list it
      removes from, so the iterator steps past the child that slides into a
      removed entry's place: that child is never examined. */
  function FilteredAsWritten(cs: seq<Element>, entryTag: string, test: EntryTest): (seq<Element>, Result<()>)
  {
    if cs == [] then ([], Ok(()))
    else if cs[0].tag != entryTag then Prepend(cs[0], FilteredAsWritten(cs[1..], entryTag, test))
    else match test(cs[0])
      case Raised(e) => (cs, Raised(e))
      case Ok(true) =>
        if |cs| == 1 then ([], Ok(()))
        else Prepend(cs[1], FilteredAsWritten(cs[2..], entryTag, test))
      case Ok(false) => Prepend(cs[0], FilteredAsWritten(cs[1..], entryTag, test))
  }

  /** Two consecutive entries the test removes: the loop as written keeps
      the second, the intended removal keeps neither. */
  lemma ConsecutiveMatchSkipped(e: Element, entryTag: string, test: EntryTest)
    requires Removes(entryTag, test, e)
    ensures FilteredAsWritten([e, e], entryTag, test) == ([e], Ok(()))
    ensures Filtered([e, e], entryTag, test) == ([], Ok(()))
    ensures Survivors([e, e], entryTag, test) == []
  {
    assert [e, e][1..] == [e] && [e, e][2..] == [] && [e][1..] == [];
    assert FilteredAsWritten([], entryTag, test) == ([], Ok(()));
    assert [e] + [] == [e];
    assert Filtered([e], entryTag, test) == ([], Ok(()));
    assert Survivors([e], entryTag, test) == [];
  }

  /** The same with two items titled "foo" and the title test for "foo". */
  lemma ConsecutiveFooItemsSkipped()
    ensures var item := Element("item", None, [Element("title", Some("foo"), [])]);
            FilteredAsWritten([item, item], "item", TitleMatch("foo")) == ([item], Ok(()))
  {
    FooItemMatches();
    ConsecutiveMatchSkipped(Element("item", None, [Element("title", Some("foo"), [])]), "item", TitleMatch("foo"));
  }

  /** An item titled "foo" matches "foo" and not "bar". */
  lemma FooItemMatches()
    ensures TitleMatch("foo")(Element("item", None, [Element("title", Some("foo"), [])])) == Ok(true)
    ensures TitleMatch("bar")(Element("item", None, [Element("title", Some("foo"), [])])) == Ok(false)
  {
    var item := Element("item", None, [Element("title", Some("foo"), [])]);
    assert FindIndex(item.children, "title") == Some(0);
    assert Find(item, "title") == Some(Element("title", Some("foo"), []));
    assert IsPrefix("foo", "foo");
    assert !In("bar", "foo") by {
      assert !IsPrefix("bar", "foo");
      assert "foo"[1..] == "oo";
      assert !IsPrefix("bar", "oo");
      assert "oo"[1..] == "o";
      assert "o"[1..] == "";
    }
  }

  // ---------------------------------------------------------------------
  // The whole rewrite
  // ---------------------------------------------------------------------

  /** The document `modifyRss` leaves behind, and whether it raises: the
      title suffix first, then the missing-channel check, then the removal
      of `item` children from the first `channel`. */
  function RssModified(root: Element, test: EntryTest): (Element, Result<()>)
  {
    match SuffixTitle(root, "channel")
    case Raised(e) => (root, Raised(e))
    case Ok(titled) =>
      match FindIndex(titled.children, "channel")
      case None => (titled, Raised(MissingChannel))
      case Some(c) =>
        var chan := titled.children[c];
        var (kept, outcome) := Filtered(chan.children, "item", test);
        (titled.(children := titled.children[c := chan.(children := kept)]), outcome)
  }

  /** The document `modifyAtom` leaves behind: the `.//feed/title` suffix,
      then the removal of `entry` children from the root itself. There is no
      container check. */
  function AtomModified(root: Element, test: EntryTest): (Element, Result<()>)
  {
    match SuffixTitle(root, "feed")
    case Raised(e) => (root, Raised(e))
    case Ok(titled) =>
      var (kept, outcome) := Filtered(titled.children, "entry", test);
      (titled.(children := kept), outcome)
  }

  /** What `handleHttp` does to the parsed document. */
  function Dispatch(contentType: string, root: Element, test: EntryTest): (Element, Result<()>)
  {
    match Classify(contentType, root)
    case Rss => RssModified(root, test)
    case Atom => AtomModified(root, test)
    case Unknown => (root, Ok(()))
  }

  /** A root with no `channel` child makes `modifyRss` raise, and the title
      step, which runs first, has nothing to change in such a root. */
  lemma RssMissingChannel(root: Element, test: EntryTest)
    requires forall k :: 0 <= k < |root.children| ==> root.children[k].tag != "channel"
    ensures RssModified(root, test) == (root, Raised(MissingChannel))
  {
    NoTitleNoChange(root, "channel");
  }

  /** The title step's failure comes before the channel check. */
  lemma RssTitleFailsFirst(root: Element, test: EntryTest)
    requires FeedTitle(root, "channel") == Some(None)
    ensures RssModified(root, test) == (root, Raised(TypeError("unsupported operand type(s) for +=: 'NoneType' and 'str'")))
  {
  }

  /** With a channel and no raising test, `modifyRss` succeeds; the first
      channel holds exactly the survivors among its children and the rest of
      the titled document is unchanged. */
  lemma RssFiltersFirstChannel(root: Element, test: EntryTest, titled: Element, c: nat)
    requires SuffixTitle(root, "channel") == Ok(titled)
    requires FindIndex(titled.children, "channel") == Some(c)
    requires forall k :: 0 <= k < |titled.children[c].children| ==> !RaisesOn("item", test, titled.children[c].children[k])
    ensures RssModified(root, test).1 == Ok(())
    ensures var r := RssModified(root, test).0;
            r.tag == titled.tag && r.text == titled.text && |r.children| == |titled.children| &&
            (forall k :: 0 <= k < |r.children| && k != c ==> r.children[k] == titled.children[k]) &&
            r.children[c].tag == "channel" && r.children[c].text == titled.children[c].text &&
            r.children[c].children == Survivors(titled.children[c].children, "item", test)
  {
    FilteredWithoutRaise(titled.children[c].children, "item", test);
  }

  /** A standard Atom document (root `feed`, title a child of the root) has
      no `feed` element below the root, so `.//feed/title` finds nothing and
      the title is never suffixed; entries are still removed. */
  lemma AtomRootTitleNotSuffixed(root: Element, test: EntryTest)
    requires forall k :: 0 <= k < |root.children| ==> root.children[k].tag != "feed"
    requires forall k :: 0 <= k < |root.children| ==> !RaisesOn("entry", test, root.children[k])
    ensures AtomModified(root, test) == (root.(children := Survivors(root.children, "entry", test)), Ok(()))
  {
    NoTitleNoChange(root, "feed");
    FilteredWithoutRaise(root.children, "entry", test);
  }

  /** A namespaced Atom document has only qualified child tags, neither
      `feed` nor `entry`; `modifyAtom` changes nothing in it. */
  lemma {:induction false} NamespacedAtomUntouched(root: Element, test: EntryTest)
    requires forall k :: 0 <= k < |root.children| ==> root.children[k].tag != "feed" && root.children[k].tag != "entry"
    ensures AtomModified(root, test) == (root, Ok(()))
  {
    NoTitleNoChange(root, "feed");
    FilteredWithoutRaise(root.children, "entry", test);
    forall k | 0 <= k < |root.children| ensures Stays("entry", test)(root.children[k]) {
    }
    KeepAll(root.children, Stays("entry", test));
  }

  lemma {:induction false} KeepAll(cs: seq<Element>, p: Element -> bool)
    requires forall k :: 0 <= k < |cs| ==> p(cs[k])
    ensures Keep(cs, p) == cs
  {
    if cs != [] {
      KeepAll(cs[1..], p);
    }
  }

  /** A document detected as neither format is passed through unchanged. */
  lemma UnknownPassesThrough(contentType: string, root: Element, test: EntryTest)
    requires Classify(contentType, root) == Unknown
    ensures Dispatch(contentType, root, test) == (root, Ok(()))
  {
  }

  /** A channel holding a title and one item: the title is suffixed, and
      the item goes exactly when the test removes it. */
  lemma {:induction false} RssTitleAndItem(s: string, item: Element, test: EntryTest)
    requires item.tag == "item" && test(item).Ok?
    ensures var doc := Element("rss", None, [Element("channel", None, [Element("title", Some(s), []), item])]);
            var title := Element("title", Some(s + FilteredSuffix), []);
            RssModified(doc, test) ==
              (Element("rss", None, [Element("channel", None, if test(item).value then [title] else [title, item])]), Ok(()))
  {
    var doc := Element("rss", None, [Element("channel", None, [Element("title", Some(s), []), item])]);
    var title := Element("title", Some(s + FilteredSuffix), []);
    var titled := Element("rss", None, [Element("channel", None, [title, item])]);
    assert FindIndex(doc.children[0].children, "title") == Some(0);
    assert HoldsTitle("channel")(doc.children[0]);
    assert TitleSite(doc, "channel") == Some((0, 0));
    var chan := doc.children[0];
    assert chan.children[0 := title] == [title, item];
    assert doc.children[0 := chan.(children := [title, item])] == titled.children;
    assert SuffixTitle(doc, "channel") == Ok(titled);
    assert FindIndex(titled.children, "channel") == Some(0);
    var cs := [title, item];
    assert cs[1..] == [item] && [item][1..] == [];
    assert [item] + [] == [item] && [title] + [] == [title] && [title] + [item] == cs;
    if test(item).value {
      assert Filtered([item], "item", test) == ([], Ok(()));
      assert Filtered(cs, "item", test) == ([title], Ok(()));
    } else {
      assert Filtered([item], "item", test) == ([item], Ok(()));
      assert Filtered(cs, "item", test) == (cs, Ok(()));
    }
    assert titled.children[0 := titled.children[0].(children := Filtered(cs, "item", test).0)] ==
           [Element("channel", None, Filtered(cs, "item", test).0)];
  }

  /** The removal case of test_main.py:69-85, with the title test the code
      applies: an item titled "foo" goes for "foo". */
  lemma RssRemoveExample()
    ensures var item := Element("item", None, [Element("title", Some("foo"), [])]);
            var doc := Element("rss", None, [Element("channel", None, [Element("title", Some("asdf"), []), item])]);
            RssModified(doc, TitleMatch("foo")) ==
              (Element("rss", None, [Element("channel", None, [Element("title", Some("asdf (filtered)"), [])])]), Ok(()))
  {
    FooItemMatches();
    assert "asdf" + FilteredSuffix == "asdf (filtered)";
    RssTitleAndItem("asdf", Element("item", None, [Element("title", Some("foo"), [])]), TitleMatch("foo"));
  }

  /** The keeping case of test_main.py:87-103: the same item stays for "bar". */
  lemma RssKeepExample()
    ensures var item := Element("item", None, [Element("title", Some("foo"), [])]);
            var doc := Element("rss", None, [Element("channel", None, [Element("title", Some("asdf"), []), item])]);
            RssModified(doc, TitleMatch("bar")) ==
              (Element("rss", None, [Element("channel", None, [Element("title", Some("asdf (filtered)"), []), item])]), Ok(()))
  {
    FooItemMatches();
    assert "asdf" + FilteredSuffix == "asdf (filtered)";
    RssTitleAndItem("asdf", Element("item", None, [Element("title", Some("foo"), [])]), TitleMatch("bar"));
  }

  // ---------------------------------------------------------------------
  // The document, rewritten in place
  // ---------------------------------------------------------------------

  /** The parsed upstream document. */
  class Document {
    var root: Element

    constructor (root: Element)
      ensures this.root == root
    {
      this.root := root;
    }

    /** `title.text += " (filtered)"` on `.//<containerTag>/title`. When it
        raises, the document is unchanged. */
    method AppendTitleSuffix(containerTag: string) returns (outcome: Result<()>)
      modifies this
      ensures SuffixTitle(old(root), containerTag).Ok? ==>
                outcome == Ok(()) && root == SuffixTitle(old(root), containerTag).value
      ensures SuffixTitle(old(root), containerTag).Raised? ==>
                outcome == Raised(SuffixTitle(old(root), containerTag).error) && root == old(root)
    {
      var site := TitleSite(root, containerTag);
      if site.None? {
        return Ok(());
      }
      var (i, j) := site.value;
      var title := root.children[i].children[j];
      if title.text.None? {
        return Raised(TypeError("unsupported operand type(s) for +=: 'NoneType' and 'str'"));
      }
      root := WithGrandchildText(root, i, j, Some(title.text.value + FilteredSuffix));
      outcome := Ok(());
    }

    /** `modifyRss`. */
    method ModifyRss(test: EntryTest) returns (outcome: Result<()>)
      modifies this
      ensures (root, outcome) == RssModified(old(root), test)
    {
      outcome := AppendTitleSuffix("channel");
      if outcome.Raised? {
        return;
      }
      var c := FindIndex(root.children, "channel");
      if c.None? {
        return Raised(MissingChannel);
      }
      var chan := root.children[c.value];
      var kept;
      kept, outcome := RemoveMatching(chan.children, "item", test);
      root := root.(children := root.children[c.value := chan.(children := kept)]);
    }

    /** `modifyAtom`. */
    method ModifyAtom(test: EntryTest) returns (outcome: Result<()>)
      modifies this
      ensures (root, outcome) == AtomModified(old(root), test)
    {
      outcome := AppendTitleSuffix("feed");
      if outcome.Raised? {
        return;
      }
      var kept;
      kept, outcome := RemoveMatching(root.children, "entry", test);
      root := root.(children := kept);
    }

    /** The rewrite step of `handleHttp`: RSS first, then Atom, otherwise the
        document is returned unmodified (the source logs an error). */
    method HandleFeed(contentType: string, test: EntryTest) returns (outcome: Result<()>)
      modifies this
      ensures (root, outcome) == Dispatch(contentType, old(root), test)
    {
      if DetectRss(contentType, root) {
        outcome := ModifyRss(test);
      } else if DetectAtom(contentType, root) {
        outcome := ModifyAtom(test);
      } else {
        outcome := Ok(());
      }
    }
  }
}
