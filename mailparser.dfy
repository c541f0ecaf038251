/** The mail parser: a function triggered by the storage bucket that receives
    Bandcamp's "new release" notification mails. It takes the first record of
    the event, parses that mail into a release and writes the release to the
    `bandcamp_release` table (mailparser/src/main.rs).

    The MIME parser, the HTML selector engine and the date formatter are
    libraries outside this model: a `Mail` holds what they would have produced. */
module MailParser {
  import opened Wrappers
  import opened Text
  import opened Dynamo

  /** The only sender whose mails are accepted. */
  const BandcampSender := "noreply@bandcamp.com"

  /** The table release records are written to. */
  const ReleaseTable := "bandcamp_release"

  /** What the libraries extract from one stored mail; `None` wherever the
      corresponding `unwrap` of the source would panic. */
  datatype Mail = Mail(
    to: Option<string>,          // address of the To header
    date: Option<string>,        // Date header, formatted as ISO 8601
    from: Option<string>,        // address of the From header
    texts: Option<seq<string>>,  // text nodes of the body's first div (None: no HTML body or no div)
    href: Option<string>,        // href of the first link in that div
    src: Option<string>)         // src of the first image inside that link

  /** The parsed release (the Rust struct `MailData`). */
  datatype MailData = MailData(
    to: string,
    date: string,
    labelName: string,
    title: string,
    artist: Option<string>,
    link: string,
    coverLink: string)

  /** The reasons the parser panics, one per failing `unwrap`/`assert`/`panic!`. */
  datatype Panic =
    | NoRecord          // `event.records[0]` on an empty list
    | MissingTo
    | MissingDate
    | MissingFrom
    | NotFromBandcamp   // the sender assertion
    | MissingDiv
    | NoReleasedClause  // no text node matches "released"
    | NoTitle           // no text node after the label node
    | MissingLink
    | MissingCover

  /** The three fields read from the text nodes. */
  datatype Extracted = Extracted(labelName: string, title: string, artist: Option<string>)

  /** The label node with every " just released " and then every line break removed. */
  function CleanLabel(node: string): string
  {
    ReplaceAll(ReplaceAll(node, " just released ", ""), "\n", "")
  }

  /** The artist node with every " by ", then every line break, then every ", " removed. */
  function CleanArtist(node: string): string
  {
    ReplaceAll(ReplaceAll(ReplaceAll(node, " by ", ""), "\n", ""), ", ", "")
  }

  lemma CleanLabelOneLine(node: string)
    ensures '\n' !in CleanLabel(node)
  {
    RemoveCharGone(ReplaceAll(node, " just released ", ""), '\n');
  }

  lemma CleanArtistOneLine(node: string)
    ensures '\n' !in CleanArtist(node)
  {
    var noLineBreak := ReplaceAll(ReplaceAll(node, " by ", ""), "\n", "");
    RemoveCharGone(ReplaceAll(node, " by ", ""), '\n');
    ReplaceAllKeepsChars(noLineBreak, ", ", "");
  }

  /** `i` is the first node at or after `start` that matches `pat`. */
  predicate FirstMatch(texts: seq<string>, start: nat, pat: string, i: int)
  {
    start <= i < |texts| && Contains(texts[i], pat)
    && forall j :: start <= j < i ==> !Contains(texts[j], pat)
  }

  lemma FirstMatchUnique(texts: seq<string>, start: nat, pat: string, i: int, k: int)
    requires FirstMatch(texts, start, pat, i) && FirstMatch(texts, start, pat, k)
    ensures i == k
  {
  }

  /** `Iterator::find` on an iterator whose cursor stands at `start`: the
      position of the first node from there on that matches `pat`. */
  function FindFrom(texts: seq<string>, start: nat, pat: string): (r: Option<nat>)
    requires start <= |texts|
    ensures r.Some? ==> FirstMatch(texts, start, pat, r.value)
    ensures r.None? ==> forall j :: start <= j < |texts| ==> !Contains(texts[j], pat)
    decreases |texts| - start
  {
    if start == |texts| then None
    else if Contains(texts[start], pat) then Some(start)
    else FindFrom(texts, start + 1, pat)
  }

  /** What the scan over the text nodes yields: the label from the first node
      matching "released", the title from the node right after it, and the
      artist from the first later node matching "by", if any. */
  function Scanned(texts: seq<string>): (r: Result<Extracted, Panic>)
    ensures r == Err(NoReleasedClause) <==> forall j :: 0 <= j < |texts| ==> !Contains(texts[j], "released")
  {
    match FindFrom(texts, 0, "released")
    case None => Err(NoReleasedClause)
    case Some(i) =>
      if i + 1 == |texts| then Err(NoTitle)
      else
        var artist :=
          match FindFrom(texts, i + 2, "by")
          case None => None
          case Some(j) => Some(CleanArtist(texts[j]));
        Ok(Extracted(CleanLabel(texts[i]), texts[i + 1], artist))
  }

  /** Neither the label nor the artist ever holds a line break. */
  lemma ScannedOneLine(texts: seq<string>)
    requires Scanned(texts).Ok?
    ensures '\n' !in Scanned(texts).value.labelName
    ensures Scanned(texts).value.artist.Some? ==> '\n' !in Scanned(texts).value.artist.value
  {
    var i := FindFrom(texts, 0, "released").value;
    CleanLabelOneLine(texts[i]);
    var j := FindFrom(texts, i + 2, "by");
    if j.Some? {
      CleanArtistOneLine(texts[j.value]);
    }
  }

  /** Where the label node is found, the title is the node right after it (or
      the parse panics when there is none), and the artist comes from the first
      node after the title that matches "by": neither the label node nor the
      title node is ever taken as the artist. */
  lemma ScannedFields(texts: seq<string>, i: nat)
    requires FirstMatch(texts, 0, "released", i)
    ensures i + 1 == |texts| ==> Scanned(texts) == Err(NoTitle)
    ensures i + 1 < |texts| ==>
      && Scanned(texts).Ok?
      && Scanned(texts).value.labelName == CleanLabel(texts[i])
      && Scanned(texts).value.title == texts[i + 1]
      && (Scanned(texts).value.artist.None? <==> forall j :: i + 2 <= j < |texts| ==> !Contains(texts[j], "by"))
      && (Scanned(texts).value.artist.Some? ==>
            exists j :: FirstMatch(texts, i + 2, "by", j) && Scanned(texts).value.artist.value == CleanArtist(texts[j]))
  {
    var found := FindFrom(texts, 0, "released");
    FirstMatchUnique(texts, 0, "released", found.value, i);
  }

  /** The scan of lines 138-147: one cursor moves through the text nodes, first
      to the node matching "released", one step on for the title, then on to
      the next node matching "by". */
  method Scan(texts: seq<string>) returns (r: Result<Extracted, Panic>)
    ensures r == Scanned(texts)
  {
    var cursor := 0;
    while cursor < |texts| && !Contains(texts[cursor], "released")
      invariant 0 <= cursor <= |texts|
      invariant forall j :: 0 <= j < cursor ==> !Contains(texts[j], "released")
    {
      cursor := cursor + 1;
    }
    if cursor == |texts| {
      return Err(NoReleasedClause);
    }
    ghost var labelAt := cursor;
    FirstMatchUnique(texts, 0, "released", FindFrom(texts, 0, "released").value, labelAt);
    var labelName := CleanLabel(texts[cursor]);
    cursor := cursor + 1;
    if cursor == |texts| {
      return Err(NoTitle);
    }
    var title := texts[cursor];
    cursor := cursor + 1;
    while cursor < |texts| && !Contains(texts[cursor], "by")
      invariant labelAt + 2 <= cursor <= |texts|
      invariant forall j :: labelAt + 2 <= j < cursor ==> !Contains(texts[j], "by")
    {
      cursor := cursor + 1;
    }
    var artist := None;
    if cursor < |texts| {
      FirstMatchUnique(texts, labelAt + 2, "by", FindFrom(texts, labelAt + 2, "by").value, cursor);
      artist := Some(CleanArtist(texts[cursor]));
    }
    r := Ok(Extracted(labelName, title, artist));
  }

  /** What `parse` computes from a mail, checks in the order of the source. */
  function Parsed(m: Mail): (r: Result<MailData, Panic>)
    ensures r.Ok? <==>
      && m.to.Some? && m.date.Some? && m.from == Some(BandcampSender) && m.texts.Some?
      && Scanned(m.texts.value).Ok? && m.href.Some? && m.src.Some?
    ensures m.to.None? ==> r == Err(MissingTo)
    ensures m.to.Some? && m.date.None? ==> r == Err(MissingDate)
    ensures m.to.Some? && m.date.Some? && m.from.None? ==> r == Err(MissingFrom)
    ensures m.to.Some? && m.date.Some? && m.from.Some? && m.from.value != BandcampSender ==>
      r == Err(NotFromBandcamp)
    ensures m.to.Some? && m.date.Some? && m.from == Some(BandcampSender) && m.texts.None? ==>
      r == Err(MissingDiv)
    ensures m.to.Some? && m.date.Some? && m.from == Some(BandcampSender) && m.texts.Some?
            && Scanned(m.texts.value).Err? ==>
      r == Err(Scanned(m.texts.value).error)
    ensures m.to.Some? && m.date.Some? && m.from == Some(BandcampSender) && m.texts.Some?
            && Scanned(m.texts.value).Ok? && m.href.None? ==>
      r == Err(MissingLink)
    ensures m.to.Some? && m.date.Some? && m.from == Some(BandcampSender) && m.texts.Some?
            && Scanned(m.texts.value).Ok? && m.href.Some? && m.src.None? ==>
      r == Err(MissingCover)
    ensures r.Ok? ==>
      && m.to == Some(r.value.to) && m.date == Some(r.value.date) && m.src == Some(r.value.coverLink)
      && m.texts.Some? && Scanned(m.texts.value) == Ok(Extracted(r.value.labelName, r.value.title, r.value.artist))
      && m.href.Some? && r.value.link == StripQuery(m.href.value)
  {
    if m.to.None? then Err(MissingTo)
    else if m.date.None? then Err(MissingDate)
    else if m.from.None? then Err(MissingFrom)
    else if m.from.value != BandcampSender then Err(NotFromBandcamp)
    else if m.texts.None? then Err(MissingDiv)
    else
      match Scanned(m.texts.value)
      case Err(e) => Err(e)
      case Ok(x) =>
        if m.href.None? then Err(MissingLink)
        else if m.src.None? then Err(MissingCover)
        else Ok(MailData(m.to.value, m.date.value, x.labelName, x.title, x.artist, StripQuery(m.href.value), m.src.value))
  }

  /** A parsed release has a one-line label and artist, and a link of one line
      is cut just before its query string. */
  lemma ParsedClean(m: Mail)
    requires Parsed(m).Ok?
    ensures '\n' !in Parsed(m).value.labelName
    ensures Parsed(m).value.artist.Some? ==> '\n' !in Parsed(m).value.artist.value
    ensures '\n' !in m.href.value ==>
      && '?' !in Parsed(m).value.link
      && Parsed(m).value.link == m.href.value[..|Parsed(m).value.link|]
      && (|Parsed(m).value.link| < |m.href.value| ==> m.href.value[|Parsed(m).value.link|] == '?')
  {
    ScannedOneLine(m.texts.value);
    if '\n' !in m.href.value {
      StripQueryTruncates(m.href.value);
    }
  }

  /** `parse` (lines 117-170). */
  method Parse(m: Mail) returns (r: Result<MailData, Panic>)
    ensures r == Parsed(m)
  {
    if m.to.None? { return Err(MissingTo); }
    if m.date.None? { return Err(MissingDate); }
    if m.from.None? { return Err(MissingFrom); }
    if m.from.value != BandcampSender { return Err(NotFromBandcamp); }
    if m.texts.None? { return Err(MissingDiv); }
    var scanned := Scan(m.texts.value);
    if scanned.Err? { return Err(scanned.error); }
    if m.href.None? { return Err(MissingLink); }
    var link := StripQuery(m.href.value);
    if m.src.None? { return Err(MissingCover); }
    r := Ok(MailData(m.to.value, m.date.value, scanned.value.labelName, scanned.value.title,
                     scanned.value.artist, link, m.src.value));
  }

  /** The record `insert_data` writes: exactly seven attributes, each the
      string of the matching field except `artist`, which is the null marker
      when no artist was found. */
  function ToItem(d: MailData): (item: Item)
    ensures item.Keys == {"to", "date", "label", "title", "artist", "link", "cover_link"}
    ensures item["artist"] == (if d.artist.Some? then S(d.artist.value) else Null(true))
    ensures item["to"] == S(d.to) && item["date"] == S(d.date)
    ensures item["label"] == S(d.labelName) && item["title"] == S(d.title)
    ensures item["link"] == S(d.link) && item["cover_link"] == S(d.coverLink)
  {
    map[
      "to" := S(d.to),
      "date" := S(d.date),
      "label" := S(d.labelName),
      "title" := S(d.title),
      "artist" := (match d.artist case Some(a) => S(a) case None => Null(true)),
      "link" := S(d.link),
      "cover_link" := S(d.coverLink)]
  }

  /** The location of a stored mail named by one record of the storage event. */
  datatype S3Record = S3Record(bucket: string, key: string)

  /** A write of one record to one table. */
  datatype Put = Put(table: string, item: Item)

  /** `handler` (lines 87-100): only the first record of the event is read;
      `fetch` stands for downloading that object and running the mail and HTML
      libraries on it. */
  method HandleEvent(records: seq<S3Record>, fetch: (string, string) -> Mail) returns (r: Result<Put, Panic>)
    ensures |records| == 0 ==> r == Err(NoRecord)
    ensures |records| > 0 ==>
      r == match Parsed(fetch(records[0].bucket, records[0].key))
           case Ok(d) => Ok(Put(ReleaseTable, ToItem(d)))
           case Err(e) => Err(e)
  {
    if |records| == 0 {
      return Err(NoRecord);
    }
    var mail := fetch(records[0].bucket, records[0].key);
    var parsed := Parse(mail);
    match parsed {
      case Ok(d) => r := Ok(Put(ReleaseTable, ToItem(d)));
      case Err(e) => r := Err(e);
    }
  }
}
