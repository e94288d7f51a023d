/**
 * The process-wide table of loaded Bibles, keyed by version and then by format
 * ("plain_text", "html", ...), with lazy loading of packaged translations and
 * registration of caller-supplied ones.
 */
module BibleRegistry {
  import opened Wrappers
  import opened Versions
  import opened Errors
  import opened BibleStore

  /** The format key of a Bible, such as "plain_text" or "html". */
  type BibleType = string

  type Bibles = map<Version, map<BibleType, Bible>>

  /** Loads a packaged translation: the Bible for a version and format, or None when the
      version has no files. */
  type Loader = (Version, BibleType) -> Option<Bible>

  /** The Bible stored under a version and format, if any. */
  function Find(bibles: Bibles, version: Version, bibleType: BibleType): Option<Bible> {
    if version in bibles && bibleType in bibles[version] then Some(bibles[version][bibleType])
    else None
  }

  /** The table with `bible` stored under (version, bibleType), replacing any earlier entry. */
  function Put(bibles: Bibles, version: Version, bibleType: BibleType, bible: Bible): (r: Bibles)
    ensures Find(r, version, bibleType) == Some(bible)
    ensures forall v, t :: (v != version || t != bibleType) ==> Find(r, v, t) == Find(bibles, v, t)
    ensures r.Keys == bibles.Keys + {version}
  {
    var formats: map<BibleType, Bible> := if version in bibles then bibles[version] else map[];
    bibles[version := formats[bibleType := bible]]
  }

  /** What `get_bible` answers: the stored Bible, else the loaded one, else the error for
      a version whose files are missing. Never a Bible stored under another key. */
  function Resolve(bibles: Bibles, loader: Loader, version: Version, bibleType: BibleType)
    : (r: Result<Bible, Error>)
    ensures Find(bibles, version, bibleType).Some? ==>
              r == Success(Find(bibles, version, bibleType).value)
    ensures Find(bibles, version, bibleType).None? ==>
              (r.Success? <==> loader(version, bibleType).Some?)
    ensures r.Success? ==> Find(bibles, version, bibleType) == Some(r.value)
                           || loader(version, bibleType) == Some(r.value)
    ensures r.Failure? ==> r.error == MissingVerseFile(version)
  {
    match Find(bibles, version, bibleType)
    case Some(bible) => Success(bible)
    case None =>
      match loader(version, bibleType)
      case Some(bible) => Success(bible)
      case None => Failure(MissingVerseFile(version))
  }

  /** After a Bible is added, asking for it returns that Bible whatever the loader would
      have produced. */
  lemma AddThenGet(bibles: Bibles, loader: Loader, version: Version, bibleType: BibleType,
                   bible: Bible)
    ensures Resolve(Put(bibles, version, bibleType, bible), loader, version, bibleType)
            == Success(bible)
  {
  }

  /** Adding under a key that is already taken replaces the earlier Bible outright. */
  lemma AddOverwrites(bibles: Bibles, version: Version, bibleType: BibleType,
                      first: Bible, second: Bible)
    ensures Put(Put(bibles, version, bibleType, first), version, bibleType, second)
            == Put(bibles, version, bibleType, second)
  {
    var formats: map<BibleType, Bible> := if version in bibles then bibles[version] else map[];
    assert formats[bibleType := first][bibleType := second] == formats[bibleType := second];
  }

  /** Adding a Bible changes the answer for no other version or format. */
  lemma AddLeavesOthers(bibles: Bibles, loader: Loader, version: Version, bibleType: BibleType,
                        bible: Bible, otherVersion: Version, otherType: BibleType)
    requires otherVersion != version || otherType != bibleType
    ensures Resolve(Put(bibles, version, bibleType, bible), loader, otherVersion, otherType)
            == Resolve(bibles, loader, otherVersion, otherType)
  {
  }

  /** Storing the Bible a key already holds leaves the table as it was. */
  lemma PutExisting(bibles: Bibles, version: Version, bibleType: BibleType)
    requires Find(bibles, version, bibleType).Some?
    ensures Put(bibles, version, bibleType, Find(bibles, version, bibleType).value) == bibles
  {
    var formats := bibles[version];
    assert formats[bibleType := formats[bibleType]] == formats;
  }

  /** The module-level `BIBLES` table together with the packaged-translation loader. */
  class Registry {
    var bibles: Bibles
    const loader: Loader

    constructor (loader: Loader)
      ensures bibles == map[] && this.loader == loader
    {
      bibles := map[];
      this.loader := loader;
    }

    /** `get_bible`: a stored Bible is returned as it is; otherwise the loader is asked and
        what it loads is stored for later calls. */
    method GetBible(version: Version, bibleType: BibleType) returns (r: Result<Bible, Error>)
      modifies this
      ensures r == Resolve(old(bibles), loader, version, bibleType)
      ensures Find(old(bibles), version, bibleType).Some? ==> bibles == old(bibles)
      ensures Find(old(bibles), version, bibleType).None? && r.Success? ==>
                bibles == Put(old(bibles), version, bibleType, r.value)
      ensures r.Failure? ==> bibles == old(bibles)
    {
      var stored := Find(bibles, version, bibleType);
      if stored.Some? {
        return Success(stored.value);
      }
      var loaded := loader(version, bibleType);
      if loaded.None? {
        return Failure(MissingVerseFile(version));
      }
      bibles := Put(bibles, version, bibleType, loaded.value);
      return Success(loaded.value);
    }

    /** `add_bible`: stores a caller-supplied Bible, replacing any entry for the same key. */
    method AddBible(version: Version, bibleType: BibleType, bible: Bible)
      modifies this
      ensures bibles == Put(old(bibles), version, bibleType, bible)
      ensures Find(bibles, version, bibleType) == Some(bible)
      ensures forall v, t :: (v != version || t != bibleType) ==>
                Find(bibles, v, t) == Find(old(bibles), v, t)
    {
      bibles := Put(bibles, version, bibleType, bible);
    }
  }
}
