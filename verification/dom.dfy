/**
  The parsed document tree the scraper reads, reduced to what its element
  accessors use (selenium_scraper.py:24-38): a tag has a name, a map of
  attributes and an ordered list of children, each a text node or a tag.
  A missing element (`select_one` finding nothing) is `None`.
*/
module Dom {
  import opened Strings
  import opened Wrappers

  datatype Tag = Tag(name: string, attrs: map<string, string>, children: seq<Content>)
  datatype Content = Text(s: string) | Element(tag: Tag)

  /** The text nodes below children `i..` of `t`, concatenated in document order. */
  function TextFrom(t: Tag, i: nat): string
    requires i <= |t.children|
    decreases t, |t.children| - i
  {
    if i == |t.children| then []
    else
      (match t.children[i]
       case Text(s) => s
       case Element(c) => TextFrom(c, 0))
      + TextFrom(t, i + 1)
  }

  /** `t.get_text()`: all text below `t`, in document order. */
  function TextOf(t: Tag): string {
    TextFrom(t, 0)
  }

  /** The tags below children `i..` of `t`, in document (pre-)order. */
  function DescendantsFrom(t: Tag, i: nat): seq<Tag>
    requires i <= |t.children|
    decreases t, |t.children| - i
  {
    if i == |t.children| then []
    else
      (match t.children[i]
       case Text(_) => []
       case Element(c) => [c] + DescendantsFrom(c, 0))
      + DescendantsFrom(t, i + 1)
  }

  /** `t.descendants`, tags only. */
  function Descendants(t: Tag): seq<Tag> {
    DescendantsFrom(t, 0)
  }

  /** The tags of `ts` whose name is `name`, in their order in `ts`. */
  function Named(ts: seq<Tag>, name: string): (r: seq<Tag>)
    ensures |r| <= |ts|
    ensures forall k :: 0 <= k < |r| ==> r[k].name == name && r[k] in ts
    ensures forall t :: t in ts && t.name == name ==> t in r
  {
    if ts == [] then []
    else (if ts[0].name == name then [ts[0]] else []) + Named(ts[1..], name)
  }

  /** Filtering by name keeps the order of the tags: it works on each part of a concatenation. */
  lemma {:induction false} NamedAppend(a: seq<Tag>, b: seq<Tag>, name: string)
    ensures Named(a + b, name) == Named(a, name) + Named(b, name)
  {
    if a == [] {
      assert a + b == b;
    } else {
      assert (a + b)[0] == a[0];
      assert (a + b)[1..] == a[1..] + b;
      NamedAppend(a[1..], b, name);
    }
  }

  /** `t.find_all(name)`: the descendants of `t` with that name, in document order. */
  function FindAll(t: Tag, name: string): seq<Tag> {
    Named(Descendants(t), name)
  }

  /** `img.get('src', '')`: the `src` attribute, or '' when the tag has none. */
  function Src(t: Tag): (r: string)
    ensures "src" in t.attrs ==> r == t.attrs["src"]
    ensures r != "" ==> "src" in t.attrs
  {
    if "src" in t.attrs then t.attrs["src"] else ""
  }

  /** `[img.get('src', '') for img in imgs if img.get('src')]`. */
  function Sources(imgs: seq<Tag>): (r: seq<string>)
    ensures |r| <= |imgs|
    ensures forall k :: 0 <= k < |r| ==> r[k] != ""
  {
    if imgs == [] then []
    else (if Src(imgs[0]) != "" then [Src(imgs[0])] else []) + Sources(imgs[1..])
  }

  /**
    The filter keeps the order of the images: the urls of a concatenation are
    the urls of its parts, one after the other.
  */
  lemma {:induction false} SourcesAppend(a: seq<Tag>, b: seq<Tag>)
    ensures Sources(a + b) == Sources(a) + Sources(b)
  {
    if a == [] {
      assert a + b == b;
    } else {
      assert (a + b)[0] == a[0];
      assert (a + b)[1..] == a[1..] + b;
      SourcesAppend(a[1..], b);
    }
  }

  /** Every listed url is the non-empty `src` of one of the images. */
  lemma {:induction false} SourcesSound(imgs: seq<Tag>)
    ensures forall k :: 0 <= k < |Sources(imgs)| ==>
              Sources(imgs)[k] != "" && exists t :: t in imgs && Src(t) == Sources(imgs)[k]
  {
    if imgs != [] {
      var rest := imgs[1..];
      SourcesSound(rest);
      var head := if Src(imgs[0]) != "" then [Src(imgs[0])] else [];
      assert Sources(imgs) == head + Sources(rest);
      forall k | 0 <= k < |Sources(imgs)|
        ensures Sources(imgs)[k] != "" && exists t :: t in imgs && Src(t) == Sources(imgs)[k]
      {
        if k < |head| {
          assert Sources(imgs)[k] == Src(imgs[0]);
        } else {
          var t :| t in rest && Src(t) == Sources(rest)[k - |head|];
          assert t in imgs;
        }
      }
    }
  }

  /** Every image with a non-empty `src` has it listed. */
  lemma {:induction false} SourcesComplete(imgs: seq<Tag>)
    ensures forall t :: t in imgs && Src(t) != "" ==> Src(t) in Sources(imgs)
  {
    if imgs != [] {
      SourcesComplete(imgs[1..]);
      forall t | t in imgs && Src(t) != ""
        ensures Src(t) in Sources(imgs)
      {
        if t != imgs[0] {
          assert t in imgs[1..];
        }
      }
    }
  }

  /**
    `get_text(element)`: '' for a missing element; otherwise the element's
    text with its leading and trailing whitespace removed.
  */
  function GetText(e: Option<Tag>): (r: string)
    ensures e.None? ==> r == ""
    ensures Trimmed(r)
    ensures e.Some? ==> exists i :: 0 <= i <= |TextOf(e.value)| && PaddedAt(TextOf(e.value), r, i)
  {
    match e
    case None => ""
    case Some(t) => Strip(TextOf(t))
  }

  /** `get_image_url(element)`: the `src` of an `img` element, '' otherwise. */
  function GetImageUrl(e: Option<Tag>): (r: string)
    ensures r != "" ==> e.Some? && e.value.name == "img" && "src" in e.value.attrs && r == e.value.attrs["src"]
    ensures e.Some? && e.value.name == "img" && "src" in e.value.attrs ==> r == e.value.attrs["src"]
  {
    if e.Some? && e.value.name == "img" then Src(e.value) else ""
  }

  /**
    `get_image_urls(element)`: the non-empty `src` values of the `img` tags
    below the element, in document order; [] for a missing element.
  */
  function GetImageUrls(e: Option<Tag>): (r: seq<string>)
    ensures e.None? ==> r == []
    ensures forall k :: 0 <= k < |r| ==> r[k] != ""
  {
    match e
    case None => []
    case Some(t) => Sources(FindAll(t, "img"))
  }

  /**
    `[]` for a missing element; otherwise every url is the non-empty `src` of
    an `img` below the element, and every such `src` is listed.
  */
  lemma ImageUrlsOfImages(e: Option<Tag>)
    ensures e.None? ==> GetImageUrls(e) == []
    ensures e.Some? ==>
      forall k :: 0 <= k < |GetImageUrls(e)| ==>
        GetImageUrls(e)[k] != "" && exists d :: d in Descendants(e.value) && d.name == "img" && Src(d) == GetImageUrls(e)[k]
    ensures e.Some? ==>
      forall d :: d in Descendants(e.value) && d.name == "img" && Src(d) != "" ==> Src(d) in GetImageUrls(e)
  {
    if e.Some? {
      var imgs := FindAll(e.value, "img");
      var r := Sources(imgs);
      SourcesSound(imgs);
      SourcesComplete(imgs);
      forall k | 0 <= k < |r|
        ensures exists d :: d in Descendants(e.value) && d.name == "img" && Src(d) == r[k]
      {
        var d :| d in imgs && Src(d) == r[k];
      }
    }
  }

  /**
    When every `img` below the element has a non-empty `src`, the result lists
    exactly those `src` values, one per image, in document order.
  */
  lemma {:induction false} SourcesInOrder(imgs: seq<Tag>)
    requires forall k :: 0 <= k < |imgs| ==> Src(imgs[k]) != ""
    ensures |Sources(imgs)| == |imgs|
    ensures forall k :: 0 <= k < |imgs| ==> Sources(imgs)[k] == Src(imgs[k])
  {
    if imgs != [] {
      SourcesInOrder(imgs[1..]);
    }
  }

  /** When every `img` below the element has a `src`, there is one url per image, in document order. */
  lemma ImageUrlsOnePerImage(t: Tag)
    requires forall d :: d in FindAll(t, "img") ==> Src(d) != ""
    ensures |GetImageUrls(Some(t))| == |FindAll(t, "img")|
    ensures forall k :: 0 <= k < |FindAll(t, "img")| ==> GetImageUrls(Some(t))[k] == Src(FindAll(t, "img")[k])
  {
    SourcesInOrder(FindAll(t, "img"));
  }

  /** The urls of the `img` tags among `ds`, in their order. */
  function ImagesOf(ds: seq<Tag>): seq<string> {
    Sources(Named(ds, "img"))
  }

  /** The urls of the images of a concatenation are those of its parts, one after the other. */
  lemma ImagesOfAppend(a: seq<Tag>, b: seq<Tag>)
    ensures ImagesOf(a + b) == ImagesOf(a) + ImagesOf(b)
  {
    NamedAppend(a, b, "img");
    SourcesAppend(Named(a, "img"), Named(b, "img"));
  }

  /** A single `img` with a `src` contributes exactly that url. */
  lemma ImagesOfSingle(d: Tag)
    requires d.name == "img" && Src(d) != ""
    ensures ImagesOf([d]) == [Src(d)]
  {
    assert [d][1..] == [];
    assert Named([d], "img") == [d];
    assert Sources([d]) == [Src(d)] + Sources([]);
  }

  /**
    For every element, whatever its images without a `src`: of two `img`
    tags with a `src`, the one earlier in the document has its url listed
    earlier.
  */
  lemma ImageUrlsInDocumentOrder(t: Tag, i: nat, j: nat)
    requires i < j < |Descendants(t)|
    requires Descendants(t)[i].name == "img" && Src(Descendants(t)[i]) != ""
    requires Descendants(t)[j].name == "img" && Src(Descendants(t)[j]) != ""
    ensures exists p, q :: 0 <= p < q < |GetImageUrls(Some(t))|
              && GetImageUrls(Some(t))[p] == Src(Descendants(t)[i])
              && GetImageUrls(Some(t))[q] == Src(Descendants(t)[j])
  {
    var ds := Descendants(t);
    var a, x, m, y, b := ds[..i], ds[i], ds[i + 1..j], ds[j], ds[j + 1..];
    assert ds == a + ([x] + (m + ([y] + b)));
    ImagesOfAppend(a, [x] + (m + ([y] + b)));
    ImagesOfAppend([x], m + ([y] + b));
    ImagesOfAppend(m, [y] + b);
    ImagesOfAppend([y], b);
    ImagesOfSingle(x);
    ImagesOfSingle(y);
    var urls := GetImageUrls(Some(t));
    assert urls == ImagesOf(a) + ([Src(x)] + (ImagesOf(m) + ([Src(y)] + ImagesOf(b))));
    var p := |ImagesOf(a)|;
    var q := p + 1 + |ImagesOf(m)|;
    assert urls[p] == Src(x);
    assert urls[q] == Src(y);
  }
}
