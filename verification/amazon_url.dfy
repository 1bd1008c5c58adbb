/** Pulling a product code and a title out of a marketplace product URL, as
    `getAsin` and `getTitle` do. URL parsing and percent-decoding are library
    calls that either succeed or throw; they are supplied as a `Platform`. */
module AmazonUrl {
  import opened Wrappers
  import opened JsString

  /** The only host whose URLs are mined for a code and a title. */
  const AmazonHost := "www.amazon.co.jp"

  /** The two parts of a parsed URL the extraction reads. */
  datatype Url = Url(host: string, pathname: string)

  /** `new URL(href)` (`None` when it throws) and `decodeURI(s)` (`None` when
      it throws on a malformed escape). */
  datatype Platform = Platform(parseUrl: string -> Option<Url>, decodeUri: string -> Option<string>)

  /** `parts[i]` on a JavaScript array: `undefined` past the end. */
  function Segment(parts: seq<string>, i: nat): Option<string>
  {
    if i < |parts| then Some(parts[i]) else None
  }

  /** `getAsin`: path segment 3 of a URL on the marketplace host, or the empty
      string when the URL does not parse, the host differs or the segment is
      missing. */
  function GetAsin(href: string, p: Platform): (code: string)
    ensures p.parseUrl(href).None? ==> code == ""
    ensures p.parseUrl(href).Some? && p.parseUrl(href).value.host != AmazonHost ==> code == ""
    ensures code != "" ==> p.parseUrl(href).Some? && p.parseUrl(href).value.host == AmazonHost
    ensures '/' !in code
  {
    match p.parseUrl(href)
    case None => ""
    case Some(u) =>
      if u.host != AmazonHost then ""
      else
        match Segment(Split(u.pathname, '/'), 3)
        case Some(s) => s
        case None => ""
  }

  /** `getTitle`: path segment 1 of a URL on the marketplace host, decoded, or
      the empty string when the URL does not parse, the host differs or the
      decoding throws. A missing segment is `undefined`, which `decodeURI`
      turns into the text "undefined" before decoding it. */
  function GetTitle(href: string, p: Platform): (title: string)
    ensures p.parseUrl(href).None? ==> title == ""
    ensures p.parseUrl(href).Some? && p.parseUrl(href).value.host != AmazonHost ==> title == ""
    ensures title != "" ==> p.parseUrl(href).Some? && p.parseUrl(href).value.host == AmazonHost
    ensures p.parseUrl(href).Some? && p.parseUrl(href).value.host == AmazonHost && '/' !in p.parseUrl(href).value.pathname
            ==> title == p.decodeUri("undefined").GetOr("")
  {
    match p.parseUrl(href)
    case None => ""
    case Some(u) =>
      if u.host != AmazonHost then ""
      else
        assert '/' !in u.pathname ==> Split(u.pathname, '/') == [u.pathname] by {
          if '/' !in u.pathname {
            SplitPiece(u.pathname, '/');
          }
        }
        var raw := match Segment(Split(u.pathname, '/'), 1)
                   case Some(s) => s
                   case None => "undefined";
        match p.decodeUri(raw)
        case Some(t) => t
        case None => ""
  }

  /** The first three pieces of `/<title>/<word>/<tail>`. */
  lemma {:induction false} LeadingPieces(title: string, word: string, tail: string)
    requires '/' !in title && '/' !in word
    ensures Split(['/'] + (title + (['/'] + (word + (['/'] + tail)))), '/')
            == ["", title, word] + Split(tail, '/')
  {
    var s2 := word + (['/'] + tail);
    var s1 := title + (['/'] + s2);
    assert ['/'] + s1 == "" + ['/'] + s1;
    SplitAfterPiece("", '/', s1);
    assert s1 == title + ['/'] + s2;
    SplitAfterPiece(title, '/', s2);
    assert s2 == word + ['/'] + tail;
    SplitAfterPiece(word, '/', tail);
  }

  /** A separator-free `code` followed by nothing or by a further segment is
      the first piece. */
  lemma {:induction false} FirstPiece(code: string, rest: string)
    requires '/' !in code
    requires rest == "" || rest[0] == '/'
    ensures Split(code + rest, '/')[0] == code
  {
    if rest == "" {
      assert code + rest == code;
      SplitPiece(code, '/');
    } else {
      assert code + rest == code + ['/'] + rest[1..];
      SplitAfterPiece(code, '/', rest[1..]);
    }
  }

  /** The product path `/<title>/<word>/<code><rest>`. */
  function ProductPath(title: string, word: string, code: string, rest: string): string
  {
    ['/'] + (title + (['/'] + (word + (['/'] + (code + rest)))))
  }

  /** On a product URL `/<title>/<word>/<code><rest>`, where `rest` is empty
      or starts a further segment, the code is `code` and the title is the
      decoded `title`. */
  lemma ProductUrl(href: string, p: Platform, title: string, word: string, code: string, rest: string)
    requires '/' !in title && '/' !in word && '/' !in code
    requires rest == "" || rest[0] == '/'
    requires p.parseUrl(href) == Some(Url(AmazonHost, ProductPath(title, word, code, rest)))
    ensures GetAsin(href, p) == code
    ensures GetTitle(href, p) == p.decodeUri(title).GetOr("")
  {
    LeadingPieces(title, word, code + rest);
    FirstPiece(code, rest);
  }

  /** A path with two segments, `/<word>/<code>`, has no segment 3, so it
      yields no code; its first segment is taken for the title. */
  lemma TwoSegmentPath(href: string, p: Platform, word: string, code: string)
    requires '/' !in word && '/' !in code
    requires p.parseUrl(href) == Some(Url(AmazonHost, "/" + word + "/" + code))
    ensures GetAsin(href, p) == ""
    ensures GetTitle(href, p) == p.decodeUri(word).GetOr("")
  {
    var path := "/" + word + "/" + code;
    assert path == "" + ['/'] + (word + ['/'] + code);
    SplitAfterPiece("", '/', word + ['/'] + code);
    SplitAfterPiece(word, '/', code);
    SplitPiece(code, '/');
    assert Split(path, '/') == ["", word, code];
  }

  /** A path with one segment, `/<word>` (the site root `/` when `word` is
      empty), yields no code; that segment is taken for the title. */
  lemma OneSegmentPath(href: string, p: Platform, word: string)
    requires '/' !in word
    requires p.parseUrl(href) == Some(Url(AmazonHost, "/" + word))
    ensures GetAsin(href, p) == ""
    ensures GetTitle(href, p) == p.decodeUri(word).GetOr("")
  {
    var path := "/" + word;
    assert path == "" + ['/'] + word;
    SplitAfterPiece("", '/', word);
    SplitPiece(word, '/');
    assert Split(path, '/') == ["", word];
  }
}
