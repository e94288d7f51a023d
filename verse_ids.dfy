/**
 * Verse identifiers: a (book, chapter, verse) position packed into one integer as
 * book * 1_000_000 + chapter * 1_000 + verse, and the validity test that the text
 * store applies before looking an identifier up.
 */
module VerseIds {

  const BookFactor: int := 1_000_000
  const ChapterFactor: int := 1_000

  /** A position in the canon: the book's number, a chapter and a verse. */
  datatype VerseRef = VerseRef(book: int, chapter: int, verse: int)

  /** Maximum verse number for each book and chapter: book -> chapter -> max verse. */
  type MaxVerses = map<int, map<int, int>>

  /** Chapter and verse each fit the three decimal digits the encoding gives them. */
  predicate InRange(r: VerseRef) {
    0 <= r.chapter < ChapterFactor && 0 <= r.verse < ChapterFactor
  }

  function Encode(r: VerseRef): int {
    r.book * BookFactor + r.chapter * ChapterFactor + r.verse
  }

  /** Splits an identifier with Python's floor division and modulo by positive divisors,
      which agree with Dafny's Euclidean `/` and `%`. */
  function Decode(id: int): (r: VerseRef)
    ensures InRange(r)
  {
    VerseRef(id / BookFactor, (id % BookFactor) / ChapterFactor, id % ChapterFactor)
  }

  lemma {:induction false} DecodeEncode(r: VerseRef)
    requires InRange(r)
    ensures Decode(Encode(r)) == r
  {
    var low := r.chapter * ChapterFactor + r.verse;
    assert 0 <= low < BookFactor;
    assert Encode(r) == r.book * BookFactor + low;
    DivModUnique(Encode(r), BookFactor, r.book, low);
    assert Encode(r) % BookFactor == low;
    DivModUnique(low, ChapterFactor, r.chapter, r.verse);
    DivModUnique(Encode(r), ChapterFactor, r.book * ChapterFactor + r.chapter, r.verse);
  }

  lemma {:induction false} EncodeDecode(id: int)
    ensures Encode(Decode(id)) == id
  {
    var r := Decode(id);
    var low := id % BookFactor;
    assert id == r.book * BookFactor + low;
    assert low == r.chapter * ChapterFactor + r.verse by {
      DivModSplit(low, ChapterFactor);
      DivModUnique(id, ChapterFactor, id / ChapterFactor, id % ChapterFactor);
      DivModUnique(id, ChapterFactor, r.book * ChapterFactor + low / ChapterFactor, low % ChapterFactor);
    }
  }

  /** The encoding is injective on in-range positions and orders them lexicographically:
      book first, then chapter, then verse. */
  lemma {:induction false} EncodeOrder(x: VerseRef, y: VerseRef)
    requires InRange(x) && InRange(y)
    ensures Encode(x) < Encode(y) <==> LexLess(x, y)
    ensures Encode(x) == Encode(y) <==> x == y
  {
    var lx := x.chapter * ChapterFactor + x.verse;
    var ly := y.chapter * ChapterFactor + y.verse;
    if x.book < y.book {
      assert x.book * BookFactor + BookFactor <= y.book * BookFactor;
    } else if y.book < x.book {
      assert y.book * BookFactor + BookFactor <= x.book * BookFactor;
    } else if x.chapter < y.chapter {
      assert x.chapter * ChapterFactor + ChapterFactor <= y.chapter * ChapterFactor;
    } else if y.chapter < x.chapter {
      assert y.chapter * ChapterFactor + ChapterFactor <= x.chapter * ChapterFactor;
    }
  }

  predicate LexLess(x: VerseRef, y: VerseRef) {
    x.book < y.book
    || (x.book == y.book && x.chapter < y.chapter)
    || (x.book == y.book && x.chapter == y.chapter && x.verse < y.verse)
  }

  lemma DivModSplit(n: int, d: int)
    requires d > 0
    ensures n == (n / d) * d + n % d && 0 <= n % d < d
  {
  }

  /** Division with a remainder in [0, d) has exactly one answer. */
  lemma {:induction false} DivModUnique(n: int, d: int, q: int, m: int)
    requires d > 0 && 0 <= m < d && n == q * d + m
    ensures n / d == q && n % d == m
  {
    DivModSplit(n, d);
    var q', m' := n / d, n % d;
    assert (q - q') * d == m' - m;
    if q' < q {
      MulAtLeast(q - q', d);
    } else if q < q' {
      MulAtLeast(q' - q, d);
    }
  }

  lemma MulAtLeast(k: int, d: int)
    requires k >= 1 && d > 0
    ensures k * d >= d
  {
  }

  /** The validator: the identifier decodes to a book, chapter and verse that the
      max-verse table knows about. */
  predicate IsValidVerseId(canon: MaxVerses, id: int) {
    VerseExists(canon, Decode(id))
  }

  predicate VerseExists(canon: MaxVerses, r: VerseRef) {
    r.book in canon && r.chapter in canon[r.book] && 1 <= r.verse <= canon[r.book][r.chapter]
  }

  /** Validating an encoded position is the same as looking the position up in the table. */
  lemma ValidEncodedIff(canon: MaxVerses, r: VerseRef)
    requires InRange(r)
    ensures IsValidVerseId(canon, Encode(r)) <==> VerseExists(canon, r)
  {
    DecodeEncode(r);
  }

  /** Every valid identifier is the encoding of the position it names. */
  lemma ValidIdIsEncoding(canon: MaxVerses, id: int)
    requires IsValidVerseId(canon, id)
    ensures VerseExists(canon, Decode(id)) && Encode(Decode(id)) == id
  {
    EncodeDecode(id);
  }

  lemma GenesisOneOne()
    ensures Encode(VerseRef(1, 1, 1)) == 1001001
    ensures Decode(1001001) == VerseRef(1, 1, 1)
  {
  }

  lemma MatthewEighteenTwelve()
    ensures Encode(VerseRef(40, 18, 12)) == 40018012
    ensures Decode(40018012) == VerseRef(40, 18, 12)
  {
  }
}
