/** Discovery: the entries of one directory that are image files, oldest first
    (`find_images`). The creation date that `get_creation_date` reads from the
    file system is an integer key carried by each entry. */
module Discovery {
  import opened Paths

  /** The recognised suffixes, compared after lowercasing. */
  const ImageExtensions: set<string> := {".jpg", ".jpeg", ".png", ".heic"}

  /** One entry of a directory listing: its path, whether it is a regular
      file, and the creation key used for ordering. */
  datatype Entry = Entry(path: Path, isFile: bool, created: int)

  /** A name whose lowercased suffix is a recognised image suffix. */
  predicate IsImageName(name: string) {
    Lower(Suffix(name)) in ImageExtensions
  }

  /** The condition of the list comprehension in `find_images`. */
  predicate IsImage(e: Entry) {
    e.isFile && IsImageName(e.path.name)
  }

  /** The list comprehension: the image entries, in listing order. */
  function Images(listing: seq<Entry>): seq<Entry> {
    if listing == [] then []
    else (if IsImage(listing[0]) then [listing[0]] else []) + Images(listing[1..])
  }

  /** Oldest first. */
  ghost predicate SortedByCreation(s: seq<Entry>) {
    forall i, j :: 0 <= i < j < |s| ==> s[i].created <= s[j].created
  }

  /** The entries of `s` whose key is `k`, in the order of `s`. */
  function WithKey(s: seq<Entry>, k: int): seq<Entry> {
    if s == [] then []
    else (if s[0].created == k then [s[0]] else []) + WithKey(s[1..], k)
  }

  /** Insertion of `e` in front of every entry with a key at least its own. */
  function Insert(e: Entry, s: seq<Entry>): seq<Entry> {
    if s == [] || e.created <= s[0].created then [e] + s
    else [s[0]] + Insert(e, s[1..])
  }

  /** Python's `sorted(..., key=get_creation_date)`: a stable sort by key. */
  function SortByCreation(s: seq<Entry>): seq<Entry> {
    if s == [] then [] else Insert(s[0], SortByCreation(s[1..]))
  }

  /** `find_images`: the image entries of the listing, sorted by creation key. */
  function FindImages(listing: seq<Entry>): seq<Entry> {
    SortByCreation(Images(listing))
  }

  lemma {:induction false} WithKeyAppend(a: seq<Entry>, b: seq<Entry>, k: int)
    ensures WithKey(a + b, k) == WithKey(a, k) + WithKey(b, k)
  {
    if a != [] {
      assert (a + b)[1..] == a[1..] + b;
      WithKeyAppend(a[1..], b, k);
    } else {
      assert a + b == b;
    }
  }

  /** Insertion adds exactly `e`. */
  lemma {:induction false} InsertPermutes(e: Entry, s: seq<Entry>)
    ensures multiset(Insert(e, s)) == multiset(s) + multiset{e}
  {
    if s != [] && s[0].created < e.created {
      InsertPermutes(e, s[1..]);
      assert s == [s[0]] + s[1..];
    }
  }

  /** Inserting into a sorted sequence keeps it sorted. */
  lemma {:induction false} InsertSorted(e: Entry, s: seq<Entry>)
    requires SortedByCreation(s)
    ensures SortedByCreation(Insert(e, s))
  {
    if s != [] && s[0].created < e.created {
      var rest := Insert(e, s[1..]);
      InsertSorted(e, s[1..]);
      InsertPermutes(e, s[1..]);
      forall j | 0 <= j < |rest| ensures s[0].created <= rest[j].created {
        assert rest[j] in multiset(rest);
      }
    }
  }

  /** In a sorted sequence, `e` goes before every entry with the same key. */
  lemma {:induction false} InsertStable(e: Entry, s: seq<Entry>, k: int)
    requires SortedByCreation(s)
    ensures WithKey(Insert(e, s), k) == WithKey([e], k) + WithKey(s, k)
  {
    if s == [] || e.created <= s[0].created {
      WithKeyAppend([e], s, k);
    } else {
      var rest := Insert(e, s[1..]);
      InsertStable(e, s[1..], k);
      WithKeyAppend([s[0]], rest, k);
      WithKeyAppend([s[0]], s[1..], k);
      assert [s[0]] + s[1..] == s;
    }
  }

  /** The sort returns a sorted permutation of its input that keeps, for every
      key, the input order of the entries carrying that key (stability). */
  lemma {:induction false} SortFacts(s: seq<Entry>)
    ensures SortedByCreation(SortByCreation(s))
    ensures multiset(SortByCreation(s)) == multiset(s)
    ensures forall k :: WithKey(SortByCreation(s), k) == WithKey(s, k)
  {
    if s != [] {
      SortFacts(s[1..]);
      InsertPermutes(s[0], SortByCreation(s[1..]));
      InsertSorted(s[0], SortByCreation(s[1..]));
      assert [s[0]] + s[1..] == s;
      forall k ensures WithKey(SortByCreation(s), k) == WithKey(s, k) {
        InsertStable(s[0], SortByCreation(s[1..]), k);
        WithKeyAppend([s[0]], s[1..], k);
      }
    }
  }

  /** The comprehension keeps each image entry as often as it is listed and
      drops every other entry. */
  lemma {:induction false} ImagesFacts(listing: seq<Entry>)
    ensures forall e :: multiset(Images(listing))[e] ==
                          if IsImage(e) then multiset(listing)[e] else 0
    ensures forall k :: WithKey(Images(listing), k) == Images(WithKey(listing, k))
  {
    if listing != [] {
      ImagesFacts(listing[1..]);
      assert [listing[0]] + listing[1..] == listing;
      forall k ensures WithKey(Images(listing), k) == Images(WithKey(listing, k)) {
        var head := if IsImage(listing[0]) then [listing[0]] else [];
        WithKeyAppend(head, Images(listing[1..]), k);
        if listing[0].created == k {
          assert WithKey(listing, k) == [listing[0]] + WithKey(listing[1..], k);
          assert ([listing[0]] + WithKey(listing[1..], k))[1..] == WithKey(listing[1..], k);
        } else {
          assert WithKey(listing, k) == WithKey(listing[1..], k);
        }
      }
    }
  }

  /** `find_images` keeps exactly the listed image files (each as often as it
      is listed), returns them oldest first, and lists entries with equal
      keys in listing order, since `sorted` is stable. */
  lemma FindImagesSpec(listing: seq<Entry>)
    ensures forall i :: 0 <= i < |FindImages(listing)| ==> IsImage(FindImages(listing)[i])
    ensures forall e :: multiset(FindImages(listing))[e] ==
                          if IsImage(e) then multiset(listing)[e] else 0
    ensures SortedByCreation(FindImages(listing))
    ensures forall k :: WithKey(FindImages(listing), k) == Images(WithKey(listing, k))
  {
    ImagesFacts(listing);
    SortFacts(Images(listing));
    var r := FindImages(listing);
    forall i | 0 <= i < |r| ensures IsImage(r[i]) {
      assert r[i] in multiset(r);
    }
  }

  /** A stem followed by an extension is an image name exactly when the
      lowercased extension is recognised. */
  lemma IsImageNameOf(stem: string, ext: string)
    requires |stem| > 0 && |ext| >= 2 && ext[0] == '.'
    requires forall j :: 0 < j < |ext| ==> ext[j] != '.'
    ensures IsImageName(stem + ext) <==> Lower(ext) in ImageExtensions
  {
    SuffixOfConcat(stem, ext);
  }

  /** Suffixes are matched after lowercasing: `.HEIC`, `.Heic`, `.JPG`,
      `.jpeg` and `.PNG` are recognised, `.txt`, `.json`, `.py` and `.md` are
      not (with IsImageNameOf, for a name of any non-empty stem). */
  lemma ExtensionExamples()
    ensures Lower(".HEIC") in ImageExtensions && Lower(".Heic") in ImageExtensions
    ensures Lower(".JPG") in ImageExtensions && Lower(".jpeg") in ImageExtensions
    ensures Lower(".PNG") in ImageExtensions
    ensures Lower(".txt") !in ImageExtensions && Lower(".json") !in ImageExtensions
    ensures Lower(".py") !in ImageExtensions && Lower(".md") !in ImageExtensions
  {
    assert Lower(".HEIC") == ".heic";
    assert Lower(".Heic") == ".heic";
    assert Lower(".JPG") == ".jpg";
    assert Lower(".jpeg") == ".jpeg";
    assert Lower(".PNG") == ".png";
    assert Lower(".txt") == ".txt";
    assert Lower(".json") == ".json";
    assert Lower(".py") == ".py";
    assert Lower(".md") == ".md";
  }

  /** Only the last dot counts: `photo.heic.txt` is no image. */
  lemma DoubleSuffixExample(stem: string)
    requires |stem| > 0
    ensures !IsImageName(stem + ".heic" + ".txt")
  {
    IsImageNameOf(stem + ".heic", ".txt");
    assert Lower(".txt") == ".txt";
  }

  /** A leading dot does not start a suffix: `.heic` is no image. */
  lemma DotFileExample()
    ensures !IsImageName(".heic")
  {
    SuffixOfDotFile(".heic");
    assert Lower("") == "";
  }

  /** A listing of image files only is kept whole, in order. */
  lemma {:induction false} ImagesOfImages(listing: seq<Entry>)
    requires forall i :: 0 <= i < |listing| ==> IsImage(listing[i])
    ensures Images(listing) == listing
  {
    if listing != [] {
      ImagesOfImages(listing[1..]);
      assert [listing[0]] + listing[1..] == listing;
    }
  }

  /** Keys 11, 12, 10 in listing order sort to 10, 11, 12. */
  lemma SortExample(first: Entry, second: Entry, third: Entry)
    requires third.created < first.created < second.created
    ensures SortByCreation([first, second, third]) == [third, first, second]
  {
    assert [first, second, third][1..] == [second, third];
    assert [second, third][1..] == [third];
    assert SortByCreation([third]) == [third];
    assert SortByCreation([second, third]) == [third, second] by {
      assert Insert(second, [third]) == [third] + Insert(second, []);
    }
    assert Insert(first, [third, second]) == [third] + Insert(first, [second]) by {
      assert [third, second][1..] == [second];
    }
  }
}
