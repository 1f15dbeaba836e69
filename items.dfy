/** The canonical item record of item.py and its two constructors, one for an
    RSS `<item>` and one for an Atom `<entry>`. Each field is read from the
    first direct child with the field's tag. */
module Items {
  import opened Python
  import opened Xml

  /** The Atom namespace, as ElementTree prefixes it to a qualified tag. */
  const AtomNs: string := "{http://www.w3.org/2005/Atom}"

  /** The canonical item. `D` stands for the datetime the date converter
      produces; the converters are parameters of this model. */
  datatype Item<D> = Item(title: Option<string>, date: Option<D>, description: Option<string>)

  /** The names of Item's fields in declaration order (`dataclasses.fields`). */
  const FieldNames: seq<string> := ["title", "date", "description"]

  /** A converter from an element's text (possibly `None`) to a field value.
      It may raise, as `parsedate_to_datetime(None)` does. */
  type Converter<T> = Option<string> -> Result<T>

  /** Python's `str` applied to an element's text: never raises, and
      `str(None)` is the four-letter string "None". */
  function Str(text: Option<string>): (r: Result<string>)
    ensures r.Ok?
    ensures text.Some? ==> r.value == text.value
    ensures text.None? ==> r.value == "None"
  {
    match text
    case None => Ok("None")
    case Some(t) => Ok(t)
  }

  /** `Item._content`: the converted text of the first child tagged `tag`,
      `None` when there is no such child. A raising converter makes the
      whole lookup raise. */
  function Content<T>(item: Element, tag: string, c: Converter<T>): (r: Result<Option<T>>)
    ensures (forall t :: c(t).Ok?) ==> r.Ok?
  {
    match Find(item, tag)
    case None => Ok(None)
    case Some(el) =>
      match c(el.text)
      case Ok(v) => Ok(Some(v))
      case Raised(e) => Raised(e)
  }

  /** `Item.fromRssItem`: unqualified `title`, `pubDate` and `description`
      children. Only the date converter can raise. */
  function FromRssItem<D>(item: Element, parseDate: Converter<D>): Result<Item<D>>
  {
    var title := Content(item, "title", Str);
    var date := Content(item, "pubDate", parseDate);
    var description := Content(item, "description", Str);
    match date
    case Raised(e) => Raised(e)
    case Ok(d) => Ok(Item(title.value, d, description.value))
  }

  /** `Item.fromAtomEntry`: Atom-qualified `title`, `updated` and `summary`
      children. Only the date converter can raise. */
  function FromAtomEntry<D>(item: Element, parseDate: Converter<D>): Result<Item<D>>
  {
    var title := Content(item, AtomNs + "title", Str);
    var date := Content(item, AtomNs + "updated", parseDate);
    var description := Content(item, AtomNs + "summary", Str);
    match date
    case Raised(e) => Raised(e)
    case Ok(d) => Ok(Item(title.value, d, description.value))
  }

  /** `i` is the position of the first child of `item` tagged `tag`. */
  predicate IsFirstChild(item: Element, tag: string, i: nat)
  {
    i < |item.children| && item.children[i].tag == tag &&
    forall j :: 0 <= j < i ==> item.children[j].tag != tag
  }

  /** No child of `item` carries `tag`. */
  predicate Absent(item: Element, tag: string)
  {
    forall j :: 0 <= j < |item.children| ==> item.children[j].tag != tag
  }

  /** An absent child yields `None` and never raises, whatever the converter:
      the converter is not consulted. */
  lemma ContentOfAbsent<T>(item: Element, tag: string, c: Converter<T>)
    requires Absent(item, tag)
    ensures Content(item, tag, c) == Ok(None)
  {
  }

  /** A present child has its text, `None` included, handed to the converter,
      and only the first child with the tag is consulted. */
  lemma {:induction false} ContentOfFirst<T>(item: Element, tag: string, c: Converter<T>, i: nat)
    requires IsFirstChild(item, tag, i)
    ensures c(item.children[i].text).Ok? ==>
              Content(item, tag, c) == Ok(Some(c(item.children[i].text).value))
    ensures c(item.children[i].text).Raised? ==>
              Content(item, tag, c) == Raised(c(item.children[i].text).error)
  {
    assert FindIndex(item.children, tag) == Some(i);
  }

  /** Children after the first match are never seen: appending more children,
      even ones with the same tags, leaves an RSS extraction unchanged once the
      item already has its title, pubDate and description. */
  lemma {:induction false} RssIgnoresLaterChildren<D>(item: Element, later: seq<Element>, parseDate: Converter<D>)
    requires !Absent(item, "title") && !Absent(item, "pubDate") && !Absent(item, "description")
    ensures FromRssItem(item.(children := item.children + later), parseDate) == FromRssItem(item, parseDate)
  {
    var longer := item.(children := item.children + later);
    FindIndexIgnoresLater(item.children, later, "title");
    FindIndexIgnoresLater(item.children, later, "pubDate");
    FindIndexIgnoresLater(item.children, later, "description");
    assert Find(longer, "title") == Find(item, "title");
    assert Find(longer, "pubDate") == Find(item, "pubDate");
    assert Find(longer, "description") == Find(item, "description");
  }

  /** An RSS item fails to convert exactly when its first `pubDate` child's
      text makes the date converter raise; an absent `pubDate` never fails. */
  lemma RssFailsOnlyOnDate<D>(item: Element, parseDate: Converter<D>)
    ensures FromRssItem(item, parseDate).Raised? <==>
              exists i: nat :: IsFirstChild(item, "pubDate", i) && parseDate(item.children[i].text).Raised?
  {
    var f := FindIndex(item.children, "pubDate");
    if f.Some? {
      ContentOfFirst(item, "pubDate", parseDate, f.value);
      forall j: nat | IsFirstChild(item, "pubDate", j) ensures j == f.value {
        assert !(j < f.value) && !(f.value < j);
      }
    }
  }

  /** What a text field of the item holds: the text of the first child
      tagged `tag`, the string "None" when that child has no text (Python's
      `str(None)`), and `None` when there is no such child. */
  function TextField(item: Element, tag: string): Option<string>
  {
    match Find(item, tag)
    case None => None
    case Some(t) => Some(if t.text.Some? then t.text.value else "None")
  }

  /** The RSS field mapping, field by field and whichever children are
      present: title from the first `title`, description from the first
      `description`, and the date converted from the first `pubDate`, absent
      when there is none. */
  lemma RssFieldMapping<D>(item: Element, parseDate: Converter<D>)
    ensures var r := FromRssItem(item, parseDate);
            r.Ok? ==> r.value.title == TextField(item, "title") &&
                      r.value.description == TextField(item, "description") &&
                      (Find(item, "pubDate").None? ==> r.value.date.None?) &&
                      (Find(item, "pubDate").Some? ==>
                         r.value.date.Some? && parseDate(Find(item, "pubDate").value.text) == Ok(r.value.date.value))
  {
  }

  /** An RSS item without any of the three children converts to the empty
      item, whatever the date converter. */
  lemma RssEmptyItem<D>(item: Element, parseDate: Converter<D>)
    requires Absent(item, "title") && Absent(item, "pubDate") && Absent(item, "description")
    ensures FromRssItem(item, parseDate) == Ok(Item(None, None, None))
  {
    ContentOfAbsent(item, "title", Str);
    ContentOfAbsent(item, "pubDate", parseDate);
    ContentOfAbsent(item, "description", Str);
  }

  /** The Atom field mapping, field by field: the Atom-qualified `title`,
      `summary` and `updated` children, each absent field `None`. */
  lemma AtomFieldMapping<D>(entry: Element, parseDate: Converter<D>)
    ensures var r := FromAtomEntry(entry, parseDate);
            r.Ok? ==> r.value.title == TextField(entry, AtomNs + "title") &&
                      r.value.description == TextField(entry, AtomNs + "summary") &&
                      (Find(entry, AtomNs + "updated").None? ==> r.value.date.None?) &&
                      (Find(entry, AtomNs + "updated").Some? ==>
                         r.value.date.Some? &&
                         parseDate(Find(entry, AtomNs + "updated").value.text) == Ok(r.value.date.value))
  {
  }

  /** An Atom entry fails to convert exactly when it has an `updated` child
      whose text makes the date converter raise. */
  lemma AtomFailsOnlyOnDate<D>(entry: Element, parseDate: Converter<D>)
    ensures FromAtomEntry(entry, parseDate).Raised? <==>
              Find(entry, AtomNs + "updated").Some? && parseDate(Find(entry, AtomNs + "updated").value.text).Raised?
  {
  }

  /** Unqualified children are invisible to the Atom constructor: an entry
      whose children are all unqualified (`title`, `summary`, ...) converts to
      the empty item. */
  lemma {:induction false} AtomIgnoresUnqualified<D>(entry: Element, parseDate: Converter<D>)
    requires forall j :: 0 <= j < |entry.children| ==> !IsPrefix(AtomNs, entry.children[j].tag)
    ensures FromAtomEntry(entry, parseDate) == Ok(Item(None, None, None))
  {
    forall t: string | t in ["title", "updated", "summary"] ensures Absent(entry, AtomNs + t) {
      assert IsPrefix(AtomNs, AtomNs + t) by {
        assert (AtomNs + t)[..|AtomNs|] == AtomNs;
      }
    }
    assert Absent(entry, AtomNs + "title");
    assert Absent(entry, AtomNs + "updated");
    assert Absent(entry, AtomNs + "summary");
  }
}
