/**
 * The corpus lister: from the repository tree listing, keep the image files under the
 * image folder, pass them through `Array.prototype.sort()` without a comparator, and map
 * each to its raw-content URL.
 */
module Corpus {
  import opened Config
  import opened Paths

  /** One element of the listing's `tree`: its `path` and its `type` ("blob", "tree", ...). */
  datatype TreeEntry = TreeEntry(path: string, kind: string)

  /** What the listing request produced. */
  datatype ListingResponse =
    | Unavailable            // fetch rejected, non-2xx status, undecodable body or no `tree`
    | NotFoundMessage        // a body whose `message` is "Not Found"
    | Listed(tree: seq<TreeEntry>)

  /** Raw-content URL of the branch; a file's URL is this, a `/`, and its path. */
  const RAW_BASE: string :=
    "https://raw.githubusercontent.com/" + GITHUB_OWNER + "/" + GITHUB_REPO + "/" + GITHUB_BRANCH

  function RawUrl(path: string): string
  {
    RAW_BASE + "/" + path
  }

  /** `c` matches the lower-case pattern character `p` under the regular expression's `i` flag. */
  predicate FoldsTo(c: char, p: char)
  {
    c == p || ('a' <= p <= 'z' && c as int == p as int - 32)
  }

  /** `s` ends with `suffix` (given in lower case), ignoring ASCII letter case. */
  predicate EndsWithIgnoringCase(s: string, suffix: string)
  {
    |suffix| <= |s| && forall i :: 0 <= i < |suffix| ==> FoldsTo(s[|s| - |suffix| + i], suffix[i])
  }

  /** The alternatives of the extension pattern, each with its leading dot, in lower case. */
  const IMAGE_EXTENSIONS: seq<string> := [".jpg", ".jpeg", ".png", ".webp"]

  /** `/\.(jpg|jpeg|png|webp)$/i.test(path)`: the path ends with one of the alternatives. */
  predicate HasImageExtension(path: string)
  {
    exists i :: 0 <= i < |IMAGE_EXTENSIONS| && EndsWithIgnoringCase(path, IMAGE_EXTENSIONS[i])
  }

  /** ASCII upper case, as the `i` flag lets it match. */
  function Upper(s: string): (u: string)
    ensures |u| == |s|
    ensures forall k :: 0 <= k < |s| ==> FoldsTo(u[k], s[k])
  {
    if s == [] then []
    else [if 'a' <= s[0] <= 'z' then (s[0] as int - 32) as char else s[0]] + Upper(s[1..])
  }

  /** A path ends with any spelling of `suffix` whose letters fold to it. */
  lemma EndsWithFolded(stem: string, written: string, suffix: string)
    requires |written| == |suffix|
    requires forall k :: 0 <= k < |written| ==> FoldsTo(written[k], suffix[k])
    ensures EndsWithIgnoringCase(stem + written, suffix)
  {
    var path := stem + written;
    assert forall k :: 0 <= k < |suffix| ==> path[|path| - |suffix| + k] == written[k];
  }

  /** Every alternative matches at the end of any path, in lower case and in upper case. */
  lemma ImageExtensionAnyCase(stem: string, i: int)
    requires 0 <= i < |IMAGE_EXTENSIONS|
    ensures HasImageExtension(stem + IMAGE_EXTENSIONS[i])
    ensures HasImageExtension(stem + Upper(IMAGE_EXTENSIONS[i]))
  {
    var ext := IMAGE_EXTENSIONS[i];
    EndsWithFolded(stem, ext, ext);
    EndsWithFolded(stem, Upper(ext), ext);
  }

  /** An alternative written in any mix of letter cases, such as `.JpG`, matches too. */
  lemma ImageExtensionMixedCase(stem: string, i: int, written: string)
    requires 0 <= i < |IMAGE_EXTENSIONS|
    requires |written| == |IMAGE_EXTENSIONS[i]|
    requires forall k :: 0 <= k < |written| ==> FoldsTo(written[k], IMAGE_EXTENSIONS[i][k])
    ensures HasImageExtension(stem + written)
  {
    EndsWithFolded(stem, written, IMAGE_EXTENSIONS[i]);
  }

  /** `.svg` ends in `g` like three of the alternatives, yet no alternative matches it. */
  lemma ImageExtensionRefusesSvg(stem: string)
    ensures !HasImageExtension(stem + ".svg")
  {
    var path := stem + ".svg";
    assert path[|path| - 2] == 'v';
    forall i | 0 <= i < |IMAGE_EXTENSIONS|
      ensures !EndsWithIgnoringCase(path, IMAGE_EXTENSIONS[i])
    {
      var ext := IMAGE_EXTENSIONS[i];
      assert ext[|ext| - 2] in "penb";
      if |ext| <= |path| {
        assert !FoldsTo(path[|path| - 2], ext[|ext| - 2]);
      }
    }
  }

  /** Every alternative ends in `g` or `p`, so a path ending in anything else is no image. */
  lemma ImageExtensionLastChar(path: string)
    requires path == [] || path[|path| - 1] !in "gGpP"
    ensures !HasImageExtension(path)
  {
    forall i | 0 <= i < |IMAGE_EXTENSIONS|
      ensures !EndsWithIgnoringCase(path, IMAGE_EXTENSIONS[i])
    {
      var ext := IMAGE_EXTENSIONS[i];
      assert ext[|ext| - 1] in "gp";
      if path != [] && |ext| <= |path| {
        assert !FoldsTo(path[|path| - 1], ext[|ext| - 1]);
      }
    }
  }

  /** The filter's condition: a file, under the image folder, with an image extension. */
  predicate IsImageEntry(e: TreeEntry)
  {
    e.kind == "blob" && StartsWith(e.path, GITHUB_PATH + "/") && HasImageExtension(e.path)
  }

  /** The filter step. */
  function KeepImages(tree: seq<TreeEntry>): (kept: seq<TreeEntry>)
    ensures |kept| <= |tree|
    ensures forall k :: 0 <= k < |kept| ==> IsImageEntry(kept[k])
  {
    if tree == [] then []
    else (if IsImageEntry(tree[0]) then [tree[0]] else []) + KeepImages(tree[1..])
  }

  /** The filter keeps exactly the entries that pass, and nothing else. */
  lemma {:induction false} KeepImagesMembers(tree: seq<TreeEntry>)
    ensures forall e :: e in KeepImages(tree) <==> e in tree && IsImageEntry(e)
  {
    if tree != [] {
      KeepImagesMembers(tree[1..]);
      assert tree == [tree[0]] + tree[1..];
    }
  }

  /** Filtering a concatenation filters each part in place: the listing order is kept. */
  lemma {:induction false} KeepImagesAppend(a: seq<TreeEntry>, b: seq<TreeEntry>)
    ensures KeepImages(a + b) == KeepImages(a) + KeepImages(b)
  {
    if a != [] {
      assert (a + b)[0] == a[0] && (a + b)[1..] == a[1..] + b;
      KeepImagesAppend(a[1..], b);
      var head := if IsImageEntry(a[0]) then [a[0]] else [];
      calc {
        KeepImages(a + b);
        head + KeepImages(a[1..] + b);
        head + (KeepImages(a[1..]) + KeepImages(b));
        (head + KeepImages(a[1..])) + KeepImages(b);
      }
    } else {
      assert a + b == b;
    }
  }

  /** `String(e)` for a listing object: the same text for every entry. */
  function ObjectString(e: TreeEntry): string
  {
    OBJECT_STRING
  }

  const OBJECT_STRING: string := "[object Object]"

  /** The default sort order: strictly before, character by character. */
  predicate Before(a: string, b: string)
  {
    if a == [] then b != []
    else if b == [] then false
    else if a[0] != b[0] then a[0] < b[0]
    else Before(a[1..], b[1..])
  }

  lemma {:induction false} BeforeIrreflexive(s: string)
    ensures !Before(s, s)
  {
    if s != [] {
      BeforeIrreflexive(s[1..]);
    }
  }

  /** Inserts `x` after every element of `sorted` whose string is not after its own (stable). */
  function InsertStable(sorted: seq<TreeEntry>, x: TreeEntry): seq<TreeEntry>
  {
    if sorted == [] then [x]
    else
      var last := sorted[|sorted| - 1];
      if Before(ObjectString(x), ObjectString(last)) then InsertStable(sorted[..|sorted| - 1], x) + [last]
      else sorted + [x]
  }

  /**
   * `entries.sort()` with no comparator: a stable sort by `String(entry)`. Every stable
   * sort by the same key gives the same result, so insertion sort stands for it.
   */
  function DefaultSort(entries: seq<TreeEntry>): seq<TreeEntry>
  {
    if entries == [] then []
    else InsertStable(DefaultSort(entries[..|entries| - 1]), entries[|entries| - 1])
  }

  /** No entry's string is before another's, so insertion appends. */
  lemma InsertAtEnd(sorted: seq<TreeEntry>, x: TreeEntry)
    ensures InsertStable(sorted, x) == sorted + [x]
  {
    if sorted != [] {
      BeforeIrreflexive(ObjectString(x));
    }
  }

  /** One step of `DefaultSort`: sort all but the last entry, then insert the last. */
  lemma DefaultSortSnoc(init: seq<TreeEntry>, x: TreeEntry)
    ensures DefaultSort(init + [x]) == InsertStable(DefaultSort(init), x)
  {
    var entries := init + [x];
    assert entries[..|entries| - 1] == init && entries[|entries| - 1] == x;
  }

  /** All entries have the same string, so the default sort leaves them in listing order. */
  lemma {:induction false} DefaultSortKeepsOrder(entries: seq<TreeEntry>)
    ensures DefaultSort(entries) == entries
    decreases |entries|
  {
    if entries != [] {
      var init, x := entries[..|entries| - 1], entries[|entries| - 1];
      assert entries == init + [x];
      calc {
        DefaultSort(init + [x]);
        { DefaultSortSnoc(init, x); }
        InsertStable(DefaultSort(init), x);
        { DefaultSortKeepsOrder(init); }
        InsertStable(init, x);
        { InsertAtEnd(init, x); }
        init + [x];
      }
    }
  }

  /** The map step. */
  function ToRawUrls(entries: seq<TreeEntry>): (urls: seq<string>)
    ensures |urls| == |entries|
    ensures forall k :: 0 <= k < |urls| ==> urls[k] == RawUrl(entries[k].path)
  {
    if entries == [] then []
    else [RawUrl(entries[0].path)] + ToRawUrls(entries[1..])
  }

  /** The filter/sort/map chain on `data.tree`. */
  function ImageList(tree: seq<TreeEntry>): seq<string>
  {
    ToRawUrls(DefaultSort(KeepImages(tree)))
  }

  /** The sort step drops out: the image list is the filtered listing, mapped, in order. */
  lemma ImageListUnsorted(tree: seq<TreeEntry>)
    ensures ImageList(tree) == ToRawUrls(KeepImages(tree))
  {
    DefaultSortKeepsOrder(KeepImages(tree));
  }

  /**
   * Every URL of the image list comes from an entry that passes the filter, every such
   * entry gives a URL, and there are no more URLs than entries.
   */
  lemma ImageListContents(tree: seq<TreeEntry>)
    ensures var urls := ImageList(tree);
      && |urls| <= |tree|
      && (forall k :: 0 <= k < |urls| ==>
            exists j :: 0 <= j < |tree| && IsImageEntry(tree[j]) && urls[k] == RawUrl(tree[j].path))
      && (forall j :: 0 <= j < |tree| && IsImageEntry(tree[j]) ==> RawUrl(tree[j].path) in urls)
  {
    var kept := KeepImages(tree);
    KeepImagesMembers(tree);
    DefaultSortKeepsOrder(kept);
    var urls := ToRawUrls(kept);
    assert forall k :: 0 <= k < |urls| ==> kept[k] in tree;
    assert forall j :: 0 <= j < |tree| && IsImageEntry(tree[j]) ==>
      exists k :: 0 <= k < |kept| && kept[k] == tree[j] && urls[k] == RawUrl(tree[j].path);
  }

  /** The image list of a concatenation is the concatenation of the image lists (order kept). */
  lemma ImageListAppend(a: seq<TreeEntry>, b: seq<TreeEntry>)
    ensures ImageList(a + b) == ImageList(a) + ImageList(b)
  {
    KeepImagesAppend(a, b);
    DefaultSortKeepsOrder(KeepImages(a + b));
    DefaultSortKeepsOrder(KeepImages(a));
    DefaultSortKeepsOrder(KeepImages(b));
    ToRawUrlsAppend(KeepImages(a), KeepImages(b));
  }

  lemma ToRawUrlsAppend(a: seq<TreeEntry>, b: seq<TreeEntry>)
    ensures ToRawUrls(a + b) == ToRawUrls(a) + ToRawUrls(b)
  {
    var l, r := ToRawUrls(a + b), ToRawUrls(a) + ToRawUrls(b);
    assert |l| == |r|;
    forall k | 0 <= k < |l| ensures l[k] == r[k] {
      if k < |a| { assert (a + b)[k] == a[k]; } else { assert (a + b)[k] == b[k - |a|]; }
    }
  }

  /** A one-entry listing gives its URL exactly when the entry passes the filter. */
  lemma ImageListSingle(e: TreeEntry)
    ensures ImageList([e]) == if IsImageEntry(e) then [RawUrl(e.path)] else []
  {
    DefaultSortKeepsOrder(KeepImages([e]));
  }

  /** `getImageList()`: every failure path gives the empty list. */
  function GetImageList(response: ListingResponse): (urls: seq<string>)
    ensures !response.Listed? ==> urls == []
  {
    match response
    case Listed(tree) => ImageList(tree)
    case _ => []
  }

  /** The id of a listed image's URL is the final segment of its repository path. */
  lemma RawUrlImageId(path: string)
    ensures GetImageID(RawUrl(path)) == GetImageID(path)
  {
    ImageIdAfterSlash(RAW_BASE, path);
  }
}
