/** `get_ann_image`: the picture the bot takes from an Anime News Network
    article page (the same chain in modules/rss/rss.py and module/rss/rss.py). */
module Thumbnails {
  import opened Outcomes
  import opened Strings
  import opened Html

  /** Python truthiness of an optional string: present and non-empty. */
  predicate Truthy(s: Option<string>) {
    s.Some? && s.value != ""
  }

  /** `img.get("data-src") or img.get("src")`. */
  function PreferredSrc(img: Img): (r: Option<string>)
    ensures Truthy(img.dataSrc) ==> r == img.dataSrc
    ensures !Truthy(img.dataSrc) ==> r == img.src
    ensures Truthy(r) <==> Truthy(img.dataSrc) || Truthy(img.src)
  {
    if Truthy(img.dataSrc) then img.dataSrc else img.src
  }

  /** `is_valid_img`: a non-empty string that starts with `http` and does
      not contain `spacer.gif`. */
  predicate IsValidImg(s: Option<string>) {
    Truthy(s) && "http" <= s.value && !Contains(s.value, "spacer.gif")
  }

  /** Text whose first character is not `h` is never a valid image. */
  lemma NotHttpInvalid(u: string)
    requires u != [] && u[0] != 'h'
    ensures !IsValidImg(Some(u))
  {
  }

  /** What `is_valid_img` accepts: relative, `data:` and spacer images are
      refused, and the `http` prefix test also lets through text that is
      not an HTTP(S) URL at all. */
  lemma IsValidImgExamples()
    ensures !IsValidImg(None) && !IsValidImg(Some(""))
    ensures !IsValidImg(Some("/images/cover.jpg"))
    ensures !IsValidImg(Some("data:image/gif;base64,R0lGOD"))
    ensures !IsValidImg(Some("https://cdn.example.net/img/spacer.gif"))
    ensures IsValidImg(Some("httpx"))
  {
    NotHttpInvalid("/images/cover.jpg");
    NotHttpInvalid("data:image/gif;base64,R0lGOD");
    var spacer := "https://cdn.example.net/img/spacer.gif";
    assert spacer[28..38] == "spacer.gif";
    ContainsAt(spacer, "spacer.gif", 28);
  }

  /** The first `<figure>`'s first `<img>`, by preference of attribute. */
  function FigureCandidate(p: Page): Option<string> {
    if |p.figures| > 0 && |p.figures[0]| > 0 then PreferredSrc(p.figures[0][0]) else None
  }

  /** The `content` of the first `og:image` meta tag. */
  function OgCandidate(p: Page): Option<string> {
    if |p.ogImages| > 0 then p.ogImages[0] else None
  }

  /** The page's first `<img>`: only that one is looked at. */
  function FirstImgCandidate(p: Page): Option<string> {
    if |p.imgs| > 0 then PreferredSrc(p.imgs[0]) else None
  }

  /** `get_ann_image` on the fetched page (None when the fetch raised). */
  function AnnImage(page: Option<Page>): (r: Option<string>)
    ensures r.Some? ==> IsValidImg(r)
    ensures page.None? ==> r.None?
  {
    match page
    case None => None
    case Some(p) =>
      if IsValidImg(FigureCandidate(p)) then FigureCandidate(p)
      else if IsValidImg(OgCandidate(p)) then OgCandidate(p)
      else if IsValidImg(FirstImgCandidate(p)) then FirstImgCandidate(p)
      else None
  }

  /** Reference definition: the first valid candidate of a priority list. */
  function FirstValid(candidates: seq<Option<string>>): (r: Option<string>)
    ensures r.Some? ==> IsValidImg(r) && r in candidates
    ensures r.Some? ==> exists k :: 0 <= k < |candidates| && candidates[k] == r
                                   && forall j :: 0 <= j < k ==> !IsValidImg(candidates[j])
    ensures r.None? <==> forall k :: 0 <= k < |candidates| ==> !IsValidImg(candidates[k])
  {
    if candidates == [] then None
    else if IsValidImg(candidates[0]) then candidates[0]
    else
      var r := FirstValid(candidates[1..]);
      assert forall k :: 1 <= k < |candidates| ==> candidates[k] == candidates[1..][k - 1];
      r
  }

  /** Chain order: figure image, then `og:image`, then the first `<img>`,
      each taken only when valid. */
  lemma AnnImageIsFirstValid(p: Page)
    ensures AnnImage(Some(p)) == FirstValid([FigureCandidate(p), OgCandidate(p), FirstImgCandidate(p)])
  {
    var cs := [FigureCandidate(p), OgCandidate(p), FirstImgCandidate(p)];
    assert cs[1..] == [OgCandidate(p), FirstImgCandidate(p)];
    assert cs[1..][1..] == [FirstImgCandidate(p)];
    assert cs[1..][1..][1..] == [];
    assert FirstValid([FirstImgCandidate(p)]) == if IsValidImg(FirstImgCandidate(p)) then FirstImgCandidate(p) else None;
  }

  /** Only the first `<img>` is examined: a page whose first image is a
      spacer and whose second is valid yields no picture. */
  lemma OnlyFirstImgExamined()
    ensures var spacer := Img(None, Some("http://a/spacer.gif"));
            var photo := Img(None, Some("http://a/b.jpg"));
            var p := Page(_ => None, [], [], [], [spacer, photo]);
            IsValidImg(photo.src) && AnnImage(Some(p)) == None
  {
    var spacer := Img(None, Some("http://a/spacer.gif"));
    var photo := Img(None, Some("http://a/b.jpg"));
    ContainsAt("http://a/spacer.gif", "spacer.gif", 9);
    var s := "http://a/b.jpg";
    forall i: nat ensures !OccursAt(s, "spacer.gif", i) {
      if i + 10 <= |s| {
        assert s[i] != 's';
        assert s[i..i + 10][0] == s[i];
      }
    }
    assert !Contains(s, "spacer.gif");
  }

  /** A valid `data-src` wins over any `src`, and an empty `data-src` falls
      through to `src`. */
  lemma DataSrcPreferred(d: string, s: Option<string>)
    ensures d != "" ==> PreferredSrc(Img(Some(d), s)) == Some(d)
    ensures PreferredSrc(Img(Some(""), s)) == s
  {
  }
}
