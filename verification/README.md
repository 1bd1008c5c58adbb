# Amazon card plugin: a Dafny model

This project models the core of a markdown post-processing plugin for the
GROWI wiki (`src/amazon.tsx`). The plugin finds `amazon` elements in a parsed
document and turns each into an illustrated link card. Cards come in two
kinds: a book card with a cover image keyed by a 13-digit ISBN, or a plain
item card.

The model covers the following parts:

- **Check characters and classification** (module `Isbn`). `checksum10` and
  `checksum13` are the check-character computations. `isIsbn10` and
  `isIsbn13` compare the last character of a code against them.
  `isbn10to13` and `isbn13to10` convert between the two forms. The
  JavaScript arithmetic is kept as written:
  - `charCodeAt` past the end of the code gives NaN, which comes out as
    U+0000.
  - `%` truncates toward zero (`JsString.TruncRem`).
  - The check value is never reduced modulo 11 or 10.
  - Neither test checks the length of the code.
- **Code and title from a URL** (module `AmazonUrl`). `getAsin` and
  `getTitle` read path segments 3 and 1 of a URL on `www.amazon.co.jp`.
  `new URL` and `decodeURI` are supplied as a `Platform` value, each of
  which either succeeds or throws.
- **Card choice and rendering** (module `AmazonCard`). `createAmazon`
  chooses the card. `_createAmazonBook` and `_createAmazonItem` render it.
  `ReadCard` reads a rendered card back, which shows what the markup
  carries.
- **Document rewrite and injection job** (module `AmazonPlugin`). The
  visitor turns each `amazon` node into a raw-HTML placeholder and starts a
  polling job. The job is a `Pending`/`Resolved` record. It injects the
  rendered card on the first tick that finds its placeholder, then stops.

Strings are `seq<char>`, and `c as int` stands for `charCodeAt`. A Dafny
`char` is a Unicode scalar value rather than a UTF-16 code unit; the
consequences are listed with what is left out.

The model follows the code where its behaviour may be unexpected:

- An explicit `asin` attribute might be expected to win over the code in a
  `url`. The code never reads `asin` when `url` is truthy
  (`AmazonCard.UrlOverridesAsin`).
- The check values have no final reduction, so a valid code whose check
  digit is 0 is not recognised
  (`Isbn.Isbn10AgainstIso2108`, `Isbn.Isbn13AgainstEan13`,
  `Isbn.ZeroCheckDigitRejected10`, `Isbn.ZeroCheckDigitRejected13`).
- A missing path segment 1 is `undefined`. `decodeURI(undefined)` decodes
  the text "undefined", so the title is not empty in that case
  (`AmazonUrl.GetTitle`).
- Without a URL, a 13-form code is linked through its 10-form. For a
  `979` code that 10-form belongs to a different book: 9791090636071 shows
  its own cover but links to `/dp/1090636075`, whose 13-form is
  9781090636072 (`AmazonCard.LinkCoverMismatch979`).

## Model

| member | source | states |
|---|---|---|
| JsString.TruncRem | src/amazon.tsx:97 | JavaScript `%`: the remainder lies strictly between -b and b and has the dividend's sign. For the moduli 10 and 11 it equals the Euclidean remainder or that minus b. |
| JsString.Substring | src/amazon.tsx:75 | `substring` clamps both indices to the length: within bounds it is the slice; past the end it runs from the clamped start to the end. |
| JsString.Split | src/amazon.tsx:49 | `split('/')` always yields at least one piece, and no piece contains the separator. |
| JsString.JoinSplit | src/amazon.tsx:49 | Joining the pieces of a split with the separator gives back the original string. |
| JsString.SplitJoin | src/amazon.tsx:49 | Splitting a join of separator-free pieces gives back exactly those pieces. |
| JsString.EndsWithSplits | src/amazon.tsx:84-90 | A string for which `endsWith(suffix)` holds is some string followed by `suffix`. |
| JsString.EndsWithAppend | src/amazon.tsx:84-90 | Conversely, any string followed by `suffix` passes `endsWith(suffix)`. |
| Isbn.Checksum10 | src/amazon.tsx:92-99 | A code shorter than 9 characters gives U+0000 (the NaN case). Otherwise the result is `X` or a character from `1` to `E` other than `:`, and never `0`. |
| Isbn.Checksum13 | src/amazon.tsx:101-108 | A code shorter than 12 characters gives U+0000. Otherwise the result is a character from `1` to `C`, and never `0`. |
| Isbn.Checksum10Loop | src/amazon.tsx:93-98 | The source's loop, with NaN absorbing every later addition, computes the same character as `Checksum10`. |
| Isbn.Checksum13Loop | src/amazon.tsx:102-107 | The source's loop, with the same NaN treatment, computes the same character as `Checksum13`. |
| Isbn.Checksum10Prefix | src/amazon.tsx:94-96 | `checksum10` reads only the first nine characters. |
| Isbn.Checksum13Prefix | src/amazon.tsx:103-105 | `checksum13` reads only the first twelve characters. |
| Isbn.Checksum10OfDigits | src/amazon.tsx:92-99 | Over a digit body, with m the sum mod 11: the result is `X` iff m = 1, `;` iff m = 0, and otherwise the digit 11 - m. |
| Isbn.Checksum13OfDigits | src/amazon.tsx:101-108 | Over a digit body, with m the sum mod 10: the result is `'0' + (10 - m)`, which is `:` iff m = 0 and a digit otherwise. |
| Isbn.IsIsbnLastCharacter | src/amazon.tsx:84-90 | Each test holds iff the code is non-empty and its last character equals its check character. A code too short for a check value passes only if it ends in U+0000. |
| Isbn.Isbn10to13 | src/amazon.tsx:74-77 | The result starts with `978`. For a code of at least 9 characters it has length 13, carries the code's first nine characters at positions 3 to 11, and passes `isIsbn13`. |
| Isbn.Isbn13to10 | src/amazon.tsx:79-82 | For a code of at least 12 characters, the result has length 10, starts with the code's characters 3 to 11, and passes `isIsbn10`. |
| Isbn.Isbn10RoundTrip | src/amazon.tsx:74-86 | For a 10-character code that passes `isIsbn10`, converting to the 13-form and back gives the code. |
| Isbn.Isbn13RoundTrip | src/amazon.tsx:74-90 | For a 13-character code that starts with `978` and passes `isIsbn13`, converting to the 10-form and back gives the code. |
| Isbn.Isbn10AgainstIso2108 | src/amazon.tsx:84-99 | On a well-formed 10-form, `isIsbn10` holds iff the code is ISO 2108-valid and its check digit is not `0`. |
| Isbn.Isbn13AgainstEan13 | src/amazon.tsx:88-108 | On thirteen digits, `isIsbn13` holds iff the code is EAN-13-valid and its check digit is not `0`. |
| Isbn.ReferenceTitle | src/amazon.tsx:92-108 | The check characters of 0-306-40615-2 and 978-0-306-40615-7 are `2` and `7`. |
| Isbn.ReferenceTitleConversion | src/amazon.tsx:74-82 | The 10-form and 13-form of that reference title convert into each other. |
| Isbn.IsbnExample | src/amazon.tsx:46 | The example code 4873119235 has check character `5`, and its 13-form is 9784873119236. |
| Isbn.ZeroCheckDigitRejected10 | src/amazon.tsx:97-98 | `0000000000` is ISO 2108-valid but fails `isIsbn10`. |
| Isbn.ZeroCheckDigitRejected13 | src/amazon.tsx:106-107 | `9780000000200` is EAN-13-valid but fails `isIsbn13`. |
| Isbn.LongCodePassesIsbn10 | src/amazon.tsx:84-86 | A 13-character code can pass `isIsbn10`. |
| Isbn.Isbn979Example | src/amazon.tsx:74-90 | 9791090636071 passes `isIsbn13` but not `isIsbn10`. Its 10-form is 1090636075, and converting that back gives a different 13-form, because the conversion always prefixes `978`. |
| AmazonUrl.GetAsin | src/amazon.tsx:44-57 | An unparsable URL or another host gives the empty code. A non-empty code implies the marketplace host, and the code never contains `/`. |
| AmazonUrl.GetTitle | src/amazon.tsx:59-72 | An unparsable URL or another host gives the empty title, and a non-empty title implies the marketplace host. A marketplace path without `/` gives the decoding of "undefined". |
| AmazonUrl.ProductUrl | src/amazon.tsx:44-72 | On a path `/<title>/<word>/<code>` followed by nothing or a further segment, the code is `<code>` and the title is the decoded `<title>`. |
| AmazonUrl.TwoSegmentPath | src/amazon.tsx:44-72 | On a two-segment path `/<word>/<code>` there is no segment 3, so the code is empty; the title is the decoded `<word>`. |
| AmazonUrl.OneSegmentPath | src/amazon.tsx:44-72 | On a one-segment path `/<word>`, including the site root `/`, the code is empty and the title is the decoded `<word>`. |
| AmazonCard.ChooseCard | src/amazon.tsx:110-134 | It fails iff there is no truthy URL and no `asin`. A book is chosen iff the code passes the 10-form or the 13-form test, tried in that order; the cover is the converted code or the code itself, and an item carries the code. With a URL, the link is the URL and the title is the explicit one or else the extracted one. Without one, the link is the product page of the code, or of its 10-form for a 13-form book. |
| AmazonCard.RenderBook | src/amazon.tsx:137-149 | The markup is exactly the opening link to the URL, the cover image of the key, a line break, the caption (the title, or the key when the title is empty) and the closing tags, with nothing else in between. |
| AmazonCard.RenderItem | src/amazon.tsx:151-161 | The markup is exactly the opening link to the URL followed by the caption (the title, or the code when the title is empty) and the closing tags, with nothing in between. |
| AmazonCard.CreateAmazon | src/amazon.tsx:110-135 | It throws iff there is no truthy URL and no `asin`. Every result is card markup, and with a URL it links to that URL. When it succeeds, reading the markup back gives the link, cover key and caption of the card `ChooseCard` picks, whenever that card is readable. |
| AmazonCard.UrlOverridesAsin | src/amazon.tsx:111-122 | With a truthy URL, the result does not depend on `asin`. |
| AmazonCard.BookCoverIsIsbn13 | src/amazon.tsx:114-130 | A book card's cover key passes `isIsbn13` whenever the classified code does not end in U+0000. |
| AmazonCard.LinkMatchesCover | src/amazon.tsx:123-130 | Without a URL, for a 10-form or `978` 13-form code, a book card links to the product page of a code whose 13-form is the cover key. |
| AmazonCard.LinkCoverMismatch979 | src/amazon.tsx:127-130 | For the `979` code 9791090636071 without a URL, the book card shows that code's cover but links to `/dp/1090636075`, whose 13-form is a different code. |
| AmazonCard.ReadRenderedCard | src/amazon.tsx:137-161 | Reading a rendered card gives back its link, its cover key (books only) and its caption, provided the link and key contain no double quote and an item caption does not begin like the cover markup. |
| AmazonCard.RenderedShape | src/amazon.tsx:137-161 | Every rendered card opens with the link to its target and ends with the closing tags, and a readable card reads back as itself. |
| AmazonCard.ExampleWithoutUrl | src/amazon.tsx:123-126 | For `asin` 4873119235 with no URL or title, the result is the exact book-card markup for 9784873119236, linked to `/dp/4873119235`. |
| AmazonCard.ExampleWithUrl | src/amazon.tsx:110-116 | For a URL whose code segment is 4873119235, the card is the book 9784873119236 linked to that URL, whatever `asin` is. |
| AmazonPlugin.VisitNode | src/amazon.tsx:16-33 | A non-`amazon` node is returned unchanged with no job. An `amazon` node gets type `html` and the placeholder of the id `amazon-<token>`, keeps its name, attributes and children, and starts one pending job with that id that captures its three attributes. |
| AmazonPlugin.RewriteTree | src/amazon.tsx:16-40 | One job per `amazon` element. The output keeps every name, attribute and child count; other nodes keep their type and value, and `amazon` nodes become placeholders. |
| AmazonPlugin.RewriteForest | src/amazon.tsx:16-40 | The same over a sequence of siblings. The number of nodes is kept, and each node is rewritten in place. |
| AmazonPlugin.RewriteTreeJobs | src/amazon.tsx:19-32 | The i-th `amazon` element met in pre-order starts the i-th job. That job is pending, takes token `next + i` for its id and holds that element's `asin`, `title` and `url`. The i-th `amazon` node of the output is the placeholder carrying that id. |
| AmazonPlugin.RewriteForestJobs | src/amazon.tsx:19-32 | The same over a sequence of siblings, in order. |
| AmazonPlugin.UntaggedTreeUnchanged | src/amazon.tsx:19 | A tree without `amazon` elements comes through the pass unchanged, and no job starts. |
| AmazonPlugin.UntaggedForestUnchanged | src/amazon.tsx:19 | The same for a sequence of siblings. |
| AmazonPlugin.JobIdsDistinct | src/amazon.tsx:27 | With distinct tokens, the jobs of one pass have distinct ids. |
| AmazonPlugin.RewrittenKeepsCount | src/amazon.tsx:19-32 | A rewritten tree has as many `amazon` elements as the original. |
| AmazonPlugin.SecondPassRestartsJobs | src/amazon.tsx:19-32 | A second pass over the output starts as many new jobs as the first pass did. |
| AmazonPlugin.Poll | src/amazon.tsx:34-39 | A resolved job does nothing. A tick injects iff the job is pending, its placeholder is found and rendering does not throw; it then injects the rendered card and resolves. Only the state ever changes. |
| AmazonPlugin.Run | src/amazon.tsx:34-39 | Over any sequence of ticks, a job injects at most once, and it ends resolved exactly when it has injected. |
| AmazonPlugin.RunOutcome | src/amazon.tsx:34-39 | A pending job injects its rendered card exactly once if its placeholder appears at some tick and rendering does not throw, and never otherwise. |

## Left out

- `src/today.tsx` (the date widget) depends on the wall clock, on JavaScript `Date` rollover, on locale formatting and on floating-point division. None of these is modelled.
- `src/today.ts` only logs nodes. `client-entry.tsx` installs a plugin into the host's option generators and is host wiring.
- `console.log`, the CSS import and the 100 ms interval period are left out. Ticks are abstract, and whether the placeholder is in the live document at a tick is an input.
- `Math.random().toString(36).slice(2)` is replaced by a supplied token function, consumed in visiting order. Distinctness of ids is proved only under the assumption that the tokens are distinct.
- `new URL` and `decodeURI` are supplied functions (`AmazonUrl.Platform`). Only the host and path name of a parsed URL are modelled. Percent-decoding itself is not modelled.
- `unist-util-visit` is modelled as a pre-order recursive map over an immutable tree. In-place mutation and node kinds without a `name` are not modelled: such a node is a node whose name is not `amazon`.
- Every `amazon` node is taken to carry an attribute map. In the source, an `amazon` node without one would throw in the visitor and end the pass; that case is not modelled.
- Characters: a JavaScript string is a sequence of UTF-16 code units, and `charCodeAt` returns one unit from 0 to 0xFFFF. A Dafny `char` is a Unicode scalar value: it can exceed 0xFFFF and is never a lone surrogate. So a model string can hold values `charCodeAt` never returns, and surrogate pairs (text outside the Basic Multilingual Plane) are not modelled.
- JsString.TruncRem: the tie to the Euclidean remainder is stated only for the moduli 10 and 11, the only ones the checksums use.
- AmazonCard.CreateAmazon: the markup is tied to the chosen card only for readable cards (no double quote in the link or cover key, and no item caption that begins like the cover markup). The plugin escapes nothing, so other cards produce markup whose parts cannot be told apart.
- AmazonCard.ReadRenderedCard: holds only for links and cover keys without a double quote, and for item captions that do not begin like the cover image markup. The plugin escapes nothing, so other inputs produce markup that cannot be read back.
