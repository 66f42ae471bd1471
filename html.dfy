/** A landing page after BeautifulSoup has parsed it, reduced to what the
    bot looks up in it. Fetching and parsing are not modelled: a fetch
    either yields such a page or fails. */
module Html {
  import opened Outcomes

  /** An `<iframe>` tag; `src` is absent when the tag has no such attribute. */
  datatype Iframe = Iframe(src: Option<string>)

  /** An `<img>` tag with its `data-src` and `src` attributes. */
  datatype Img = Img(dataSrc: Option<string>, src: Option<string>)

  datatype Page = Page(
    /** `soup.select_one(selector)`: the iframes inside the first element
        matching the selector, in document order, or None when no element matches. */
    selectOne: string -> Option<seq<Iframe>>,
    /** Every iframe of the document, in document order. */
    iframes: seq<Iframe>,
    /** The `<img>` tags inside each `<figure>`, figures in document order. */
    figures: seq<seq<Img>>,
    /** The `content` attribute of each `<meta property="og:image">`. */
    ogImages: seq<Option<string>>,
    /** Every `<img>` of the document, in document order. */
    imgs: seq<Img>)
}
