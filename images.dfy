/**
 * Choosing the image of a post (scrape.py lines 29-40): first the post itself
 * when it is an image, then the first preview image, else none; the chosen URL
 * is HTML-unescaped only when it is truthy.
 */
module Images {
  import opened Wrappers
  import opened Listing

  predicate EndsWith(s: string, suffix: string) {
    |suffix| <= |s| && s[|s| - |suffix|..] == suffix
  }

  /** `url.endswith(('.jpg', '.png', '.webp'))`: exact, case-sensitive suffixes. */
  predicate HasImageExtension(url: string) {
    EndsWith(url, ".jpg") || EndsWith(url, ".png") || EndsWith(url, ".webp")
  }

  /** Rule 1: `post_hint == 'image'` or `p.get('url', '')` has an image extension. */
  predicate IsDirectImage(p: RawPost) {
    p.postHint == Some("image") || HasImageExtension(p.url.GetOr(""))
  }

  /** Rule 2 applies: `'preview' in p and 'images' in p['preview']`. */
  predicate HasPreviewImages(p: RawPost) {
    p.preview.Some? && p.preview.value.images.Some?
  }

  /** `images[0]['source']['url']`, failing as the subscripts do. */
  function FirstPreviewUrl(images: seq<PreviewImage>): Result<string, Failure> {
    if |images| == 0 then Err(EmptyImageList)
    else if images[0].source.None? then Err(MissingKey("source"))
    else if images[0].source.value.url.None? then Err(MissingKey("url"))
    else Ok(images[0].source.value.url.value)
  }

  /** The image URL before unescaping: `p.get('url')` under rule 1 (None when the
      post has no url), the first preview image under rule 2, otherwise None. */
  function ChooseImage(p: RawPost): Result<Option<string>, Failure> {
    if IsDirectImage(p) then Ok(p.url)
    else if HasPreviewImages(p) then
      match FirstPreviewUrl(p.preview.value.images.value)
      case Ok(u) => Ok(Some(u))
      case Err(e) => Err(e)
    else Ok(None)
  }

  /** `if image_url: image_url = html.unescape(image_url)`. */
  function StoredImage(chosen: Option<string>, unescape: string -> string): Option<string> {
    if TruthyText(chosen) then Some(unescape(chosen.value)) else chosen
  }

  /** Rule 1 wins over rule 2: a direct image is chosen whatever preview the post has. */
  lemma DirectImageIgnoresPreview(p: RawPost, other: Option<Preview>)
    requires IsDirectImage(p)
    ensures ChooseImage(p) == ChooseImage(p.(preview := other)) == Ok(p.url)
  {
  }

  /** A chosen image comes from the post's own url or, only when rule 1 fails,
      from the source of the first preview image. */
  lemma ChosenImageOrigin(p: RawPost)
    ensures ChooseImage(p).Ok? && ChooseImage(p).value.Some? ==>
      (if IsDirectImage(p) then ChooseImage(p).value == p.url
       else (HasPreviewImages(p) && |p.preview.value.images.value| > 0
             && p.preview.value.images.value[0].source == Some(ImageSource(ChooseImage(p).value))))
  {
  }

  /** Only rule 2 can fail, and it fails exactly when the first preview image is
      missing or lacks a source url. */
  lemma ChooseImageFailsOnlyOnPreview(p: RawPost)
    ensures ChooseImage(p).Err? <==>
      !IsDirectImage(p) && HasPreviewImages(p) && FirstPreviewUrl(p.preview.value.images.value).Err?
    ensures ChooseImage(p) == Err(EmptyImageList) <==>
      !IsDirectImage(p) && HasPreviewImages(p) && p.preview.value.images.value == []
  {
  }

  /** Neither rule applies: no image. */
  lemma NoRuleNoImage(p: RawPost)
    requires !IsDirectImage(p) && !HasPreviewImages(p)
    ensures ChooseImage(p) == Ok(None)
  {
  }

  /** The extension test is exact and case-sensitive, whatever the rest of the
      URL: `.jpg`, `.png` and `.webp` match; `.jpeg`, `.gif` and `.JPG` do not. */
  lemma ExtensionForAllNames(u: string)
    ensures HasImageExtension(u + ".jpg") && HasImageExtension(u + ".png") && HasImageExtension(u + ".webp")
    ensures !HasImageExtension(u + ".jpeg") && !HasImageExtension(u + ".gif") && !HasImageExtension(u + ".JPG")
  {
    var n := |u|;
    assert (u + ".jpg")[n..] == ".jpg" && (u + ".png")[n..] == ".png" && (u + ".webp")[n..] == ".webp";
    assert (u + ".jpeg")[n + 1..][0] == 'j' && (u + ".jpeg")[n..][1] == 'j';
    assert (u + ".gif")[n..][1] == 'g' && (u + ".gif")[n + 1..][0] == 'g';
    assert (u + ".JPG")[n..][1] == 'J' && (u + ".JPG")[n..][0] == '.';
  }

  /** None and the empty string are stored unchanged; any other URL is unescaped. */
  lemma StoredImageUnescapesOnlyTruthy(chosen: Option<string>, unescape: string -> string)
    ensures chosen == None ==> StoredImage(chosen, unescape) == None
    ensures chosen == Some("") ==> StoredImage(chosen, unescape) == Some("")
    ensures TruthyText(chosen) ==> StoredImage(chosen, unescape) == Some(unescape(chosen.value))
  {
  }
}
