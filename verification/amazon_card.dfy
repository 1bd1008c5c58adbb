/** Choosing and rendering the card for an `amazon` element (`createAmazon`,
    `_createAmazonBook`, `_createAmazonItem`), and reading a rendered card
    back, which shows that the markup carries exactly the link, cover and
    caption the choice made. */
module AmazonCard {
  import opened Wrappers
  import opened JsString
  import opened Isbn
  import opened AmazonUrl

  /** Product page for a code, used when no URL is given. */
  const DpPrefix := "https://www.amazon.co.jp/dp/"

  /** The fixed pieces of the card markup. */
  const CardOpen := "<div class=\"amazon\"><a href=\""
  const LinkClose := "\">"
  const CoverOpen := "<img src=\"https://img.hanmoto.com/bd/img/"
  const CoverExt := ".jpg"
  const CoverClose := "\"/><br>"
  const CardClose := "</a></div>"

  /** JavaScript truthiness of an attribute: present and not empty. */
  predicate Truthy(s: Option<string>)
  {
    s.Some? && s.value != ""
  }

  /** The card to render: a book with a cover keyed by its 13-form, or a
      plain item. `title` may be empty, in which case the code is shown. */
  datatype Card =
    | Book(isbn13: string, title: string, link: string)
    | Item(asin: string, title: string, link: string)

  /** Without a URL and without an `asin` attribute, `createAmazon` calls
      `charCodeAt` on `undefined` and throws a TypeError. */
  datatype Fault = AsinUndefined

  /** The code `createAmazon` classifies: the one in the URL when a URL is
      given (the `asin` attribute is then never read), else `asin`. */
  function ChosenCode(asin: Option<string>, url: Option<string>, p: Platform): string
  {
    if Truthy(url) then GetAsin(url.value, p) else asin.GetOr("")
  }

  /** `createAmazon` up to the choice of card: the 10-form test first, then
      the 13-form, else an item; the link is the given URL, or the product
      page of the 10-form code when there is none. */
  function ChooseCard(asin: Option<string>, title: Option<string>, url: Option<string>, p: Platform): (r: Result<Card, Fault>)
    ensures r.Failure? <==> !Truthy(url) && asin.None?
    ensures r.Success? ==>
      var code := ChosenCode(asin, url, p);
      && (r.value.Book? <==> IsIsbn10(code) || IsIsbn13(code))
      && (r.value.Book? && IsIsbn10(code) ==> r.value.isbn13 == Isbn10to13(code))
      && (r.value.Book? && !IsIsbn10(code) ==> r.value.isbn13 == code)
      && (r.value.Item? ==> r.value.asin == code)
    ensures Truthy(url) ==>
      && r.Success?
      && r.value.link == url.value
      && r.value.title == (if Truthy(title) then title.value else GetTitle(url.value, p))
    ensures !Truthy(url) && asin.Some? ==>
      && r.Success?
      && r.value.title == title.GetOr("")
      && r.value.link == DpPrefix + (if r.value.Book? && !IsIsbn10(asin.value) then Isbn13to10(asin.value) else asin.value)
  {
    if Truthy(url) then
      var code := GetAsin(url.value, p);
      var shown := if Truthy(title) then title.value else GetTitle(url.value, p);
      if IsIsbn10(code) then Success(Book(Isbn10to13(code), shown, url.value))
      else if IsIsbn13(code) then Success(Book(code, shown, url.value))
      else Success(Item(code, shown, url.value))
    else if asin.None? then
      Failure(AsinUndefined)
    else
      // An undefined title is falsy exactly like an empty one.
      var code := asin.value;
      var shown := title.GetOr("");
      if IsIsbn10(code) then Success(Book(Isbn10to13(code), shown, DpPrefix + code))
      else if IsIsbn13(code) then Success(Book(code, shown, DpPrefix + Isbn13to10(code)))
      else Success(Item(code, shown, DpPrefix + code))
  }

  /** The text inside the link: the title when it is not empty, else the code. */
  function Caption(title: string, code: string): string
  {
    if title != "" then title else code
  }

  /** `_createAmazonBook`: a link to `url` around the cover image of `isbn13`,
      a line break and the caption, with nothing else in between. */
  function RenderBook(isbn13: string, title: string, url: string): (html: string)
    ensures CardOpen + url + LinkClose <= html
    ensures EndsWith(html, Caption(title, isbn13) + CardClose)
    ensures |html| == |CardOpen + url + LinkClose| + |CoverOpen + isbn13 + CoverExt + CoverClose| + |Caption(title, isbn13) + CardClose|
    ensures html[|CardOpen + url + LinkClose|..|html| - |Caption(title, isbn13) + CardClose|] == CoverOpen + isbn13 + CoverExt + CoverClose
  {
    var open := CardOpen + url + LinkClose;
    var tail := Caption(title, isbn13) + CardClose;
    var html := open + CoverOpen + isbn13 + CoverExt + CoverClose + tail;
    var cover := CoverOpen + isbn13 + CoverExt + CoverClose;
    assert html == open + cover + tail;
    assert html[|html| - |tail|..] == tail;
    assert html[|open|..|html| - |tail|] == cover;
    html
  }

  /** `_createAmazonItem`: a link to `url` around the caption, with nothing
      else in between. */
  function RenderItem(asin: string, title: string, url: string): (html: string)
    ensures CardOpen + url + LinkClose <= html
    ensures EndsWith(html, Caption(title, asin) + CardClose)
    ensures |html| == |CardOpen + url + LinkClose| + |Caption(title, asin) + CardClose|
  {
    var open := CardOpen + url + LinkClose;
    var tail := Caption(title, asin) + CardClose;
    var html := open + tail;
    assert html[|html| - |tail|..] == tail;
    html
  }

  function Render(card: Card): string
  {
    match card
    case Book(isbn13, title, link) => RenderBook(isbn13, title, link)
    case Item(asin, title, link) => RenderItem(asin, title, link)
  }

  /** `createAmazon`: the chosen card, rendered; it throws only when neither
      a URL nor an `asin` attribute is given. */
  function CreateAmazon(asin: Option<string>, title: Option<string>, url: Option<string>, p: Platform): (r: Result<string, Fault>)
    ensures r.Failure? <==> !Truthy(url) && asin.None?
    ensures r.Success? ==> CardOpen <= r.value && EndsWith(r.value, CardClose)
    ensures Truthy(url) ==> r.Success? && CardOpen + url.value + LinkClose <= r.value
    ensures r.Success? ==> ChooseCard(asin, title, url, p).Success?
    ensures r.Success? && Readable(ChooseCard(asin, title, url, p).value) ==>
      ReadCard(r.value) == Some(ViewOf(ChooseCard(asin, title, url, p).value))
  {
    match ChooseCard(asin, title, url, p)
    case Success(card) =>
      RenderedShape(card);
      Success(Render(card))
    case Failure(e) => Failure(e)
  }

  /** When a URL is given, the `asin` attribute makes no difference. */
  lemma UrlOverridesAsin(asin1: Option<string>, asin2: Option<string>, title: Option<string>, url: Option<string>, p: Platform)
    requires Truthy(url)
    ensures CreateAmazon(asin1, title, url, p) == CreateAmazon(asin2, title, url, p)
  {
  }

  /** A book card's cover key passes the 13-form test whenever the classified
      code does not end in U+0000 (the character a NaN check value becomes). */
  lemma {:induction false} BookCoverIsIsbn13(asin: Option<string>, title: Option<string>, url: Option<string>, p: Platform)
    requires ChooseCard(asin, title, url, p).Success?
    requires ChooseCard(asin, title, url, p).value.Book?
    requires var code := ChosenCode(asin, url, p); |code| == 0 || code[|code| - 1] != '\0'
    ensures IsIsbn13(ChooseCard(asin, title, url, p).value.isbn13)
  {
    var code := ChosenCode(asin, url, p);
    IsIsbnLastCharacter(code);
  }

  /** Without a URL, a book card's link and cover name the same book: the
      code in the link converts to the cover's 13-form. */
  lemma {:induction false} LinkMatchesCover(asin: string, title: Option<string>, p: Platform)
    requires |asin| == 10 || (|asin| == 13 && asin[..3] == "978")
    requires asin[|asin| - 1] != '\0'
    requires ChooseCard(Some(asin), title, None, p).value.Book?
    ensures var card := ChooseCard(Some(asin), title, None, p).value;
      && DpPrefix <= card.link
      && Isbn10to13(card.link[|DpPrefix|..]) == card.isbn13
  {
    var card := ChooseCard(Some(asin), title, None, p).value;
    IsIsbnLastCharacter(asin);
    if IsIsbn10(asin) {
      assert card.link == DpPrefix + asin;
      assert card.link[|DpPrefix|..] == asin;
    } else {
      assert |asin| == 13;
      Isbn13RoundTrip(asin);
      assert card.link[|DpPrefix|..] == Isbn13to10(asin);
    }
  }

  /** Outside the 978 range, link and cover name different books: for the
      979-prefixed code 979-10-90636-07-1 without a URL, the cover shows that
      code, but the link carries the 10-form of its body, 1090636075, which
      belongs to 978-1-090636-07-2. */
  lemma LinkCoverMismatch979(p: Platform)
    ensures var r := ChooseCard(Some("9791090636071"), None, None, p);
      && r.Success? && r.value.Book?
      && r.value.isbn13 == "9791090636071"
      && r.value.link == DpPrefix + "1090636075"
      && Isbn10to13(r.value.link[|DpPrefix|..]) != r.value.isbn13
  {
    var code := "9791090636071";
    var ten := "1090636075";
    Isbn979Example();
    assert ChooseCard(Some(code), None, None, p) == Success(Book(code, "", DpPrefix + ten));
    assert (DpPrefix + ten)[|DpPrefix|..] == ten;
  }

  /** The characters of `s` before the first `c` (all of `s` when there is none). */
  function Before(s: string, c: char): (r: string)
    ensures r <= s
    ensures c !in r
    ensures |r| < |s| ==> s[|r|] == c
  {
    if |s| == 0 || s[0] == c then "" else [s[0]] + Before(s[1..], c)
  }

  lemma BeforeFirst(a: string, c: char, b: string)
    requires c !in a
    ensures Before(a + [c] + b, c) == a
  {
    var s := a + [c] + b;
    assert s[|a|] == c;
    assert s[..|a|] == a;
  }

  /** What a reader of the markup sees: the link target, the cover key of a
      book, and the caption. */
  datatype View = View(link: string, cover: Option<string>, caption: string)

  function ViewOf(card: Card): View
  {
    match card
    case Book(isbn13, title, link) => View(link, Some(isbn13), Caption(title, isbn13))
    case Item(asin, title, link) => View(link, None, Caption(title, asin))
  }

  /** The cards whose markup can be read back: the plugin escapes nothing, so
      the link and cover key must not contain a double quote, and an item's
      caption must not itself begin like a cover image. */
  predicate Readable(card: Card)
  {
    && '"' !in card.link
    && (card.Book? ==> '"' !in card.isbn13)
    && (card.Item? ==> !(CoverOpen <= Caption(card.title, card.asin)))
  }

  /** Reads the link target and the markup inside the link out of a card. */
  function ReadLink(html: string): Option<(string, string)>
  {
    if !(CardOpen <= html) then None
    else
      var rest := html[|CardOpen|..];
      var link := Before(rest, '"');
      if |rest| <= |link| then None
      else
        var body := rest[|link| + 1..];
        if |body| < 1 + |CardClose| || body[0] != '>' || !EndsWith(body, CardClose) then None
        else Some((link, body[1..|body| - |CardClose|]))
  }

  /** Reads the cover key, if any, and the caption out of the markup inside
      the link. */
  function ReadInner(inner: string): Option<(Option<string>, string)>
  {
    if CoverOpen <= inner then
      var file := inner[|CoverOpen|..];
      var name := Before(file, '"');
      var tail := file[|name|..];
      if !EndsWith(name, CoverExt) || !(CoverClose <= tail) then None
      else Some((Some(name[..|name| - |CoverExt|]), tail[|CoverClose|..]))
    else Some((None, inner))
  }

  /** Reads the link, cover key and caption back out of card markup. */
  function ReadCard(html: string): Option<View>
  {
    match ReadLink(html)
    case None => None
    case Some((link, inner)) =>
      match ReadInner(inner)
      case None => None
      case Some((cover, caption)) => Some(View(link, cover, caption))
  }

  lemma ReadBodyOf(inner: string)
    ensures var body := ">" + inner + CardClose;
      && |body| >= 1 + |CardClose| && body[0] == '>' && EndsWith(body, CardClose)
      && body[1..|body| - |CardClose|] == inner
  {
    var body := ">" + inner + CardClose;
    assert body[|body| - |CardClose|..] == CardClose;
    assert body[1..|body| - |CardClose|] == inner;
  }

  lemma ReadLinkOf(link: string, inner: string)
    requires '"' !in link
    ensures ReadLink(CardOpen + link + LinkClose + inner + CardClose) == Some((link, inner))
  {
    var html := CardOpen + link + LinkClose + inner + CardClose;
    var after := ">" + inner + CardClose;
    var rest := link + ['"'] + after;
    assert html == CardOpen + rest;
    assert html[|CardOpen|..] == rest;
    BeforeFirst(link, '"', after);
    assert rest[|link| + 1..] == after;
    ReadBodyOf(inner);
  }

  lemma CoverFileOf(isbn13: string, caption: string)
    requires '"' !in isbn13
    ensures var file := isbn13 + CoverExt + CoverClose + caption;
      && Before(file, '"') == isbn13 + CoverExt
      && file[|isbn13 + CoverExt|..] == CoverClose + caption
  {
    var name := isbn13 + CoverExt;
    var rest := "/><br>" + caption;
    assert CoverClose + caption == ['"'] + rest;
    assert isbn13 + CoverExt + CoverClose + caption == name + ['"'] + rest;
    BeforeFirst(name, '"', rest);
  }

  lemma ReadCoverOf(isbn13: string, caption: string)
    requires '"' !in isbn13
    ensures ReadInner(CoverOpen + isbn13 + CoverExt + CoverClose + caption) == Some((Some(isbn13), caption))
  {
    var file := isbn13 + CoverExt + CoverClose + caption;
    var inner := CoverOpen + file;
    assert CoverOpen + isbn13 + CoverExt + CoverClose + caption == inner;
    assert inner[|CoverOpen|..] == file;
    CoverFileOf(isbn13, caption);
    EndsWithAppend(isbn13, CoverExt);
    assert (isbn13 + CoverExt)[..|isbn13|] == isbn13;
    assert (CoverClose + caption)[|CoverClose|..] == caption;
  }

  /** Rendering then reading gives back the card's link, cover and caption,
      provided the link and cover key contain no double quote and an item's
      caption does not itself begin like a cover image. */
  lemma ReadRenderedCard(card: Card)
    requires Readable(card)
    ensures ReadCard(Render(card)) == Some(ViewOf(card))
  {
    if card.Book? {
      ReadRenderedBook(card.isbn13, card.title, card.link);
    } else {
      ReadRenderedItem(card.asin, card.title, card.link);
    }
  }

  lemma ReadRenderedBook(isbn13: string, title: string, link: string)
    requires '"' !in link && '"' !in isbn13
    ensures ReadCard(RenderBook(isbn13, title, link)) == Some(View(link, Some(isbn13), Caption(title, isbn13)))
  {
    var caption := Caption(title, isbn13);
    var inner := CoverOpen + isbn13 + CoverExt + CoverClose + caption;
    assert RenderBook(isbn13, title, link) == CardOpen + link + LinkClose + inner + CardClose;
    ReadLinkOf(link, inner);
    ReadCoverOf(isbn13, caption);
  }

  lemma ReadRenderedItem(asin: string, title: string, link: string)
    requires '"' !in link && !(CoverOpen <= Caption(title, asin))
    ensures ReadCard(RenderItem(asin, title, link)) == Some(View(link, None, Caption(title, asin)))
  {
    var caption := Caption(title, asin);
    assert RenderItem(asin, title, link) == CardOpen + link + LinkClose + caption + CardClose;
    ReadLinkOf(link, caption);
  }

  /** Every rendered card opens with the link to the card's target, closes
      the card, and reads back as the card when it is readable. */
  lemma RenderedShape(card: Card)
    ensures CardOpen <= Render(card)
    ensures CardOpen + card.link + LinkClose <= Render(card)
    ensures EndsWith(Render(card), CardClose)
    ensures Readable(card) ==> ReadCard(Render(card)) == Some(ViewOf(card))
  {
    var html := Render(card);
    var open := CardOpen + card.link + LinkClose;
    var caption := Caption(card.title, if card.Book? then card.isbn13 else card.asin);
    assert open <= html && EndsWith(html, caption + CardClose);
    assert open[..|CardOpen|] == CardOpen;
    EndsWithTail(html, caption, CardClose);
    if Readable(card) {
      ReadRenderedCard(card);
    }
  }

  /** The example code 4873119235 from the plugin's comments, without a URL:
      a book card linked to its product page, showing the cover of
      978-4-87311-923-6 and, with no title, that code as the caption. */
  lemma ExampleWithoutUrl(p: Platform)
    ensures CreateAmazon(Some("4873119235"), None, None, p) == Success(
      CardOpen + DpPrefix + "4873119235" + LinkClose
      + CoverOpen + "9784873119236" + CoverExt + CoverClose
      + "9784873119236" + CardClose)
  {
    var code := "4873119235";
    IsbnExample();
    IsIsbnLastCharacter(code);
    assert IsIsbn10(code);
    var card := Book("9784873119236", "", DpPrefix + code);
    assert ChooseCard(Some(code), None, None, p) == Success(card);
    assert Render(card) == CardOpen + card.link + LinkClose + CoverOpen + card.isbn13 + CoverExt + CoverClose + card.isbn13 + CardClose;
    assert CardOpen + card.link == CardOpen + DpPrefix + code;
    assert CreateAmazon(Some(code), None, None, p) == Success(Render(card));
  }

  /** The example URL from the plugin's comments: a product path whose code
      segment is 4873119235 gives a book card for 978-4-87311-923-6 linked to
      the URL itself, captioned with the decoded title segment, whatever the
      `asin` attribute says. */
  lemma ExampleWithUrl(asin: Option<string>, href: string, p: Platform, encodedTitle: string)
    requires href != "" && '/' !in encodedTitle
    requires p.parseUrl(href) == Some(Url(AmazonHost, ProductPath(encodedTitle, "dp", "4873119235", "/")))
    ensures ChooseCard(asin, None, Some(href), p)
         == Success(Book("9784873119236", p.decodeUri(encodedTitle).GetOr(""), href))
  {
    ProductUrl(href, p, encodedTitle, "dp", "4873119235", "/");
    IsbnExample();
    IsIsbnLastCharacter("4873119235");
  }
}
