/**
 * One translation in one format: its full text, the offsets where each verse starts
 * and ends, and the lookup that returns the cleaned text of a verse or verse range.
 */
module BibleStore {
  import opened Wrappers
  import opened VerseIds
  import opened Versions
  import opened Errors
  import opened PyText

  /** The markup-stripping rule applied to HTML content (uninterpreted here). */
  type MarkupCleaner = string -> string

  /** `_clean`: HTML content goes through the markup cleaner, plain text is stripped of
      the whitespace around it. Being a function, equal arguments give equal results,
      which is all the source's memoisation relies on. */
  function Clean(content: string, isHtml: bool, cleanHtml: MarkupCleaner): (r: string)
    ensures isHtml ==> r == cleanHtml(content)
    ensures !isHtml ==> exists i, j :: 0 <= i <= j <= |content| && r == content[i..j]
                                       && AllSpace(content[..i]) && AllSpace(content[j..])
    ensures !isHtml && r != [] ==> !IsSpace(r[0]) && !IsSpace(r[|r| - 1])
  {
    if isHtml then cleanHtml(content) else Strip(content)
  }

  /**
   * The text of one translation. Every field is set once by a constructor and only
   * read afterwards.
   */
  class Bible {
    const version: Version
    const scriptureContent: string
    const verseStartIndices: map<int, int>
    const verseEndIndices: map<int, int>
    const maxVerses: MaxVerses
    const shortTitles: map<int, string>
    const longTitles: map<int, string>
    const isHtml: bool

    constructor (version: Version, scriptureContent: string,
                 verseStartIndices: map<int, int>, verseEndIndices: map<int, int>,
                 maxVerses: MaxVerses, shortTitles: map<int, string>,
                 longTitles: map<int, string>, isHtml: bool)
      ensures this.version == version && this.scriptureContent == scriptureContent
      ensures this.verseStartIndices == verseStartIndices
      ensures this.verseEndIndices == verseEndIndices
      ensures this.maxVerses == maxVerses
      ensures this.shortTitles == shortTitles && this.longTitles == longTitles
      ensures this.isHtml == isHtml
    {
      this.version := version;
      this.scriptureContent := scriptureContent;
      this.verseStartIndices := verseStartIndices;
      this.verseEndIndices := verseEndIndices;
      this.maxVerses := maxVerses;
      this.shortTitles := shortTitles;
      this.longTitles := longTitles;
      this.isHtml := isHtml;
    }

    /** Construction with `is_html` left at its default. */
    constructor Plain(version: Version, scriptureContent: string,
                      verseStartIndices: map<int, int>, verseEndIndices: map<int, int>,
                      maxVerses: MaxVerses, shortTitles: map<int, string>,
                      longTitles: map<int, string>)
      ensures this.version == version && this.scriptureContent == scriptureContent
      ensures this.verseStartIndices == verseStartIndices
      ensures this.verseEndIndices == verseEndIndices
      ensures this.maxVerses == maxVerses
      ensures this.shortTitles == shortTitles && this.longTitles == longTitles
      ensures !this.isHtml
    {
      this.version := version;
      this.scriptureContent := scriptureContent;
      this.verseStartIndices := verseStartIndices;
      this.verseEndIndices := verseEndIndices;
      this.maxVerses := maxVerses;
      this.shortTitles := shortTitles;
      this.longTitles := longTitles;
      this.isHtml := false;
    }

    /** Every offset in both tables lies inside the content. */
    predicate WellIndexed() {
      && (forall id :: id in verseStartIndices ==> 0 <= verseStartIndices[id] <= |scriptureContent|)
      && (forall id :: id in verseEndIndices ==> 0 <= verseEndIndices[id] <= |scriptureContent|)
    }

    /** `_get_start_and_end_indices`: the start offset of the first verse and the end
        offset of the last, or the id that either table is missing. */
    function StartAndEndIndices(startVerseId: int, endVerseId: int): (r: Result<(int, int), Error>)
      ensures r.Success? <==> startVerseId in verseStartIndices && endVerseId in verseEndIndices
      ensures r.Success? ==> r.value.0 == verseStartIndices[startVerseId]
                             && r.value.1 == verseEndIndices[endVerseId]
      ensures startVerseId !in verseStartIndices ==> r == Failure(VersionMissingVerse(startVerseId))
      ensures startVerseId in verseStartIndices && endVerseId !in verseEndIndices
              ==> r == Failure(VersionMissingVerse(endVerseId))
    {
      if startVerseId !in verseStartIndices then Failure(VersionMissingVerse(startVerseId))
      else if endVerseId !in verseEndIndices then Failure(VersionMissingVerse(endVerseId))
      else Success((verseStartIndices[startVerseId], verseEndIndices[endVerseId]))
    }

    /** The id that closes the range: the given end, or the start when it is omitted. */
    static function LastVerse(startVerseId: int, endVerseId: Option<int>): int {
      if endVerseId.Some? then endVerseId.value else startVerseId
    }

    /** `get_scripture`: validates both ids, looks up their offsets, slices the content
        and cleans the slice. `canon` is the max-verse table the validator consults. */
    function GetScripture(canon: MaxVerses, startVerseId: int, endVerseId: Option<int>,
                          cleanHtml: MarkupCleaner): (r: Result<string, Error>)
      ensures !IsValidVerseId(canon, startVerseId) ==> r == Failure(InvalidVerse(startVerseId))
      ensures (IsValidVerseId(canon, startVerseId) && endVerseId.Some?
               && !IsValidVerseId(canon, endVerseId.value))
              ==> r == Failure(InvalidVerse(endVerseId.value))
      ensures r.Success? <==>
                && IsValidVerseId(canon, startVerseId)
                && IsValidVerseId(canon, LastVerse(startVerseId, endVerseId))
                && startVerseId in verseStartIndices
                && LastVerse(startVerseId, endVerseId) in verseEndIndices
      // A consequence of the next clause and `StartAndEndIndices`' contract, kept for the reader:
      // a missing-offset error always names an id that lacks its offset.
      ensures r.Failure? && r.error.VersionMissingVerse? ==>
                (r.error.verseId == startVerseId && startVerseId !in verseStartIndices)
                || (r.error.verseId == LastVerse(startVerseId, endVerseId)
                    && LastVerse(startVerseId, endVerseId) !in verseEndIndices)
      ensures (IsValidVerseId(canon, startVerseId)
               && IsValidVerseId(canon, LastVerse(startVerseId, endVerseId))
               && StartAndEndIndices(startVerseId, LastVerse(startVerseId, endVerseId)).Failure?)
              ==> r == Failure(StartAndEndIndices(startVerseId, LastVerse(startVerseId, endVerseId)).error)
      ensures r.Success? ==>
                r.value == Clean(Slice(scriptureContent,
                                       verseStartIndices[startVerseId],
                                       verseEndIndices[LastVerse(startVerseId, endVerseId)]),
                                 isHtml, cleanHtml)
    {
      if !IsValidVerseId(canon, startVerseId) then Failure(InvalidVerse(startVerseId))
      else if endVerseId.Some? && !IsValidVerseId(canon, endVerseId.value) then
        Failure(InvalidVerse(endVerseId.value))
      else
        var lastVerseId := LastVerse(startVerseId, endVerseId);
        match StartAndEndIndices(startVerseId, lastVerseId)
        case Failure(e) => Failure(e)
        case Success((startIndex, endIndex)) =>
          Success(Clean(Slice(scriptureContent, startIndex, endIndex), isHtml, cleanHtml))
    }

    /** Leaving the end out asks for the single-verse range that starts and ends there. */
    lemma OmittedEndIsSingleVerse(canon: MaxVerses, verseId: int, cleanHtml: MarkupCleaner)
      ensures GetScripture(canon, verseId, None, cleanHtml)
              == GetScripture(canon, verseId, Some(verseId), cleanHtml)
    {
    }

    /** For plain text in a well-indexed Bible, a verse range is the stretch of content
        between the two offsets with the surrounding whitespace removed: a piece of the
        content, bounded by non-space characters, with only whitespace cut away. */
    lemma PlainScriptureIsTrimmedRange(canon: MaxVerses, startVerseId: int, endVerseId: int,
                                       cleanHtml: MarkupCleaner)
      requires WellIndexed() && !isHtml
      requires GetScripture(canon, startVerseId, Some(endVerseId), cleanHtml).Success?
      requires verseStartIndices[startVerseId] <= verseEndIndices[endVerseId]
      ensures var text := GetScripture(canon, startVerseId, Some(endVerseId), cleanHtml).value;
              var lo, hi := verseStartIndices[startVerseId], verseEndIndices[endVerseId];
              exists i, j :: lo <= i <= j <= hi && text == scriptureContent[i..j]
                             && AllSpace(scriptureContent[lo..i]) && AllSpace(scriptureContent[j..hi])
      ensures var text := GetScripture(canon, startVerseId, Some(endVerseId), cleanHtml).value;
              text == [] || (!IsSpace(text[0]) && !IsSpace(text[|text| - 1]))
    {
      var lo, hi := verseStartIndices[startVerseId], verseEndIndices[endVerseId];
      assert 0 <= lo <= hi <= |scriptureContent|;
      var piece := Slice(scriptureContent, lo, hi);
      assert piece == scriptureContent[lo..hi];
      assert GetScripture(canon, startVerseId, Some(endVerseId), cleanHtml).value
             == Strip(piece);
      StripOfRange(scriptureContent, lo, hi);
    }

    /** A range whose end offset comes before its start offset reads as empty plain text,
        as Python's slicing makes it. */
    lemma BackwardRangeIsEmpty(canon: MaxVerses, startVerseId: int, endVerseId: int,
                               cleanHtml: MarkupCleaner)
      requires WellIndexed() && !isHtml
      requires GetScripture(canon, startVerseId, Some(endVerseId), cleanHtml).Success?
      requires verseEndIndices[endVerseId] <= verseStartIndices[startVerseId]
      ensures GetScripture(canon, startVerseId, Some(endVerseId), cleanHtml).value == ""
    {
    }
  }

  /** The text depends only on the sliced content and the format flag: two Bibles that
      agree on those give the same answer. */
  lemma ScriptureDependsOnlyOnSlice(a: Bible, b: Bible, canon: MaxVerses, startVerseId: int,
                                    endVerseId: int, cleanHtml: MarkupCleaner)
    requires a.GetScripture(canon, startVerseId, Some(endVerseId), cleanHtml).Success?
    requires b.GetScripture(canon, startVerseId, Some(endVerseId), cleanHtml).Success?
    requires a.isHtml == b.isHtml
    requires Slice(a.scriptureContent, a.verseStartIndices[startVerseId], a.verseEndIndices[endVerseId])
             == Slice(b.scriptureContent, b.verseStartIndices[startVerseId], b.verseEndIndices[endVerseId])
    ensures a.GetScripture(canon, startVerseId, Some(endVerseId), cleanHtml)
            == b.GetScripture(canon, startVerseId, Some(endVerseId), cleanHtml)
  {
  }

  const GenesisOneOneText: string := "In the beginning " + "God created the heavens and the earth."
  const GenesisOneTwoText: string := "And the earth was waste and void."

  /** The plain-text cleaning of Genesis 1:1 as stored, with its closing newline. */
  lemma CleanGenesisOneOne(cleanHtml: MarkupCleaner)
    ensures Clean(GenesisOneOneText + "\n", false, cleanHtml) == GenesisOneOneText
  {
    assert GenesisOneOneText[0] == 'I' && GenesisOneOneText[|GenesisOneOneText| - 1] == '.';
    StripSurrounded("", GenesisOneOneText, "\n");
    assert "" + GenesisOneOneText + "\n" == GenesisOneOneText + "\n";
  }

  /** Genesis 1:1 passes the validator against a table giving Genesis 1 its 31 verses. */
  lemma GenesisOneOneIsValid()
    ensures IsValidVerseId(map[1 := map[1 := 31]], 1001001)
  {
    assert Decode(1001001) == VerseRef(1, 1, 1);
  }

  /** The first 56 characters of the sample content are Genesis 1:1 and its newline. */
  lemma GenesisOneOneSlice(content: string)
    requires content == (GenesisOneOneText + "\n") + (GenesisOneTwoText + "\n")
    ensures Slice(content, 0, 56) == GenesisOneOneText + "\n"
  {
    var head := GenesisOneOneText + "\n";
    assert |head| == 56;
    assert content[0..56] == head;
  }

  /** Genesis 1:1 (id 1001001) in a plain-text Bible whose verses end on a newline. */
  lemma GenesisOneOnePlainText(b: Bible, cleanHtml: MarkupCleaner)
    requires !b.isHtml
    requires b.scriptureContent == (GenesisOneOneText + "\n") + (GenesisOneTwoText + "\n")
    requires b.verseStartIndices == map[1001001 := 0, 1001002 := 56]
    requires b.verseEndIndices == map[1001001 := 56, 1001002 := 90]
    ensures b.GetScripture(map[1 := map[1 := 31]], 1001001, None, cleanHtml)
            == Success(GenesisOneOneText)
  {
    GenesisOneOneIsValid();
    assert b.StartAndEndIndices(1001001, 1001001) == Success((0, 56));
    GenesisOneOneSlice(b.scriptureContent);
    CleanGenesisOneOne(cleanHtml);
  }
}
