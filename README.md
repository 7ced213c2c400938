# Kitodo.Presentation fulltext extraction and page-URL template, in Dafny

This project models two small parts of the Kitodo.Presentation TYPO3 extension (`dlf`).

1. **The ALTO fulltext format** (`Classes/Format/Alto.php`). It implements the fulltext interface (`Classes/Common/FulltextInterface.php`). From a parsed ALTO 2.x page it produces:
   - the **raw text**: the `CONTENT` of every `String` directly under a `TextLine` directly under a `TextBlock` below the page's `PrintSpace`, joined by single spaces;
   - a **MiniOCR** document `<ocr><b><l><w x="HPOS VPOS WIDTH HEIGHT">word </w>…</l></b></ocr>` with one `b` per `TextBlock`, one `l` per `TextLine` child and one `w` per `String` child.
2. **The page-URL template** (`DocumentController::getUrlTemplate`). The controller builds two URLs for different page, double-page and page-grid arguments and cuts each at `&cHash=`. It compares them character by character and replaces every differing character by `PAGE_NO`, `DOUBLE_PAGE` or `PAGE_GRID`.

## Layout

| file | module | contents |
|---|---|---|
| `wrappers.dfy` | `Wrappers` | `Option` |
| `xml.dfy` | `Xml` | the parsed tree: elements with a (namespace, local name), attributes and ordered children |
| `strings.dfy` | `Strings` | prefixes and occurrences, `implode` (`Join`) and its layout, `explode` (`Split`), `strpos` (`Find`) and their round trips |
| `entities.dfy` | `Entities` | `htmlspecialchars` and the serializer's escaping (`Escape`), well-formed character data (`Escaped`), entity resolution (`Decode`), and `Decode(Escape(s)) == s` |
| `mini_ocr.dfy` | `MiniOcr` | the MiniOCR tree; the mutable `Tree` the extractor grows with `addChild`; the serializer standing for `asXml` |
| `mini_ocr_reader.dfy` | `MiniOcrReader` | a reader for serialized MiniOCR, and the proof that it reads every serialized tree back |
| `alto.dfy` | `Alto` | the XPath selections, `getRawText`, `getWord`, `getCoordinates`, and the three `getTextAsMiniOcr` loops as methods on a `Tree` |
| `alto_properties.dfy` | `AltoProperties` | selection, mirroring, empty-page and raw-text / MiniOCR agreement lemmas |
| `alto_examples.dfy` | `AltoExamples` | a page with a block inside a block, on which the two outputs order the words differently |
| `fulltext.dfy` | `Fulltext` | the two-operation fulltext interface, with ALTO as its variant |
| `url_template.dfy` | `UrlTemplate` | `$make`'s `&cHash=` cut, the diff loop, and the template lemmas |

## Modelling decisions

- **XML.** An XPath name test `alto:X` matches an element in the namespace `http://www.loc.gov/standards/alto/ns-v2#` with local name `X`. The `children()` loops of `getTextAsMiniOcr` compare the key, which is the local name only. The descendant step `//` is written as recursive functions (`BlocksIn`, `BlocksInSeq`) that produce document order.
- **Raw text.** The XPath for the words is evaluated by one document-order walk (`WordsIn`). The walk carries whether the parent is a `TextLine` and whether the parent and grandparent are `TextBlock`s. A String with no `CONTENT` attribute contributes nothing, as `@CONTENT` selects nothing for it.
- **Word text.** `addChild('w', $value)` takes `$value` as XML character data, so the entity references that `htmlspecialchars` wrote are resolved again. The stored text is therefore `CONTENT + " "` (lemma `Entities.RoundTrip`, used by `Alto.GetWord`). `addChild` also needs `$value` to be well-formed character data, since a bare `&` would begin an unterminated entity reference. `MiniOcr.Tree.AddWord` therefore requires `Entities.Escaped`, and `htmlspecialchars` guarantees it. `htmlspecialchars` is modelled with the PHP 8.1 defaults: `& < > " '`, with `'` written as `&#039;`.
- **The output tree.** `MiniOcr.Tree` holds the blocks built so far. The extractor only adds to the block and the line it created last, so `$newBlock` and `$newLine` are "the last block" and "the last line of the last block".
- **`asXml`.** `Alto.GetTextAsMiniOcr` takes the serializer as a parameter, so its `''` fallback for a non-string result can be stated. The serializer in `MiniOcr.Serialize` writes:
  - the declaration `<?xml version="1.0"?>` and a line break;
  - `<x/>` for an empty element;
  - text with `& < >` escaped and attribute values with `& < > "` escaped;
  - a final line break.

  `MiniOcrReader.ReadSerialized` proves that this output determines the tree.
- **The fulltext interface** has no bodies and no state. It becomes the datatype `Fulltext.Format`, whose one variant `AltoFormat` carries the two operations as members.
- **The URL builder.** The `uriBuilder` chain becomes a function parameter `build(page, double, pagegrid)`. The URL template is then string manipulation on the two built URLs.
- **URLs of different lengths.** `getUrlTemplate` compares only the positions of the first URL and does not require the second to be as long. In PHP `$b[$i]` past the end of `$b` reads as `""`, which never equals a character, so that position gets a placeholder. `PieceAt` treats `i >= |b|` as a difference, and nothing is required of the lengths.
- **Raw text versus MiniOCR.** Both outputs take their words from the same direct `TextLine`/`String` children of the same blocks. They still agree only on a "plain" page (`AltoProperties.PlainAlto`), which needs three things of every selected block:
  - every element in it is in the ALTO namespace, since `children()` keys ignore the namespace while XPath does not;
  - no `TextBlock` lies inside it, since raw text is in document order while MiniOCR goes block by block;
  - every `String` of its lines has `CONTENT`, since raw text skips a String without one while MiniOCR writes `" "`.

  `AltoExamples.NestedBlocksReorderWords` shows the second point on a concrete page.

## Model

| member | source | states |
|---|---|---|
| Alto.GetRawText | Classes/Format/Alto.php:36-46 | With no selected word the raw text is `""`. Otherwise its length is the total word length plus one separator between neighbours. Each selected word stands unescaped at its start offset (the lengths of the words before it plus one per separator), and a space stands just before every word but the first. Splitting it at spaces gives back exactly the selected words in order, provided no word contains a space. |
| AltoProperties.NoBlocksNoText | Classes/Format/Alto.php:38-45 | A page with no TextBlock below its PrintSpace has no selected words, and its raw text is `""`. |
| Alto.GetWord | Classes/Format/Alto.php:102-105 | The escaped word, with its entity references resolved, is CONTENT followed by one space. It is well-formed character data (`Entities.Escaped`: no `<`, and every `&` begins an entity reference), contains no `"` and ends with a space. A missing CONTENT gives `" "`. |
| Alto.GetCoordinates | Classes/Format/Alto.php:116-119 | Splitting the result at spaces gives back HPOS, VPOS, WIDTH and HEIGHT exactly, a missing attribute as `""`, provided none of them contains a space. |
| Alto.GetTextAsMiniOcr | Classes/Format/Alto.php:57-91 | With no selected TextBlock the result is `""` (the body returns before any tree is built). Otherwise the result is the serializer's output for the MiniOCR tree of the blocks, or `""` when the serializer returns no string. |
| Alto.BuildMiniOcr | Classes/Format/Alto.php:68-84 | The three nested loops on a fresh `<ocr>` tree produce exactly `MiniOcrDoc(blocks)`: one `b` per block, one `l` per TextLine child, one `w` per String child, in order. |
| Alto.AppendBlock | Classes/Format/Alto.php:71-83 | One pass of the middle loop appends to the tree's blocks exactly one `b`, the one for the block, and leaves the earlier blocks unchanged. |
| Alto.AppendLine | Classes/Format/Alto.php:74-81 | One pass of the inner loop appends to the last block exactly one `l`, the one for the TextLine, and leaves everything before it unchanged. |
| MiniOcr.Tree.constructor | Classes/Format/Alto.php:68 | The new `<ocr>` tree has no blocks. |
| MiniOcr.Tree.AddBlock | Classes/Format/Alto.php:71 | Adding a `b` appends one empty block after the existing ones. |
| MiniOcr.Tree.AddLine | Classes/Format/Alto.php:74 | Adding an `l` appends one empty line to the last block; nothing else changes. |
| MiniOcr.Tree.AddWord | Classes/Format/Alto.php:78-79 | Adding a `w` appends to the last line of the last block one word. Its text is the value with entity references resolved and its `x` attribute is the given coordinates; nothing else changes. The value must be well-formed character data (`Entities.Escaped`), which `Alto.AppendLine` meets through `getWord`. |
| Entities.HtmlSpecialChars | Classes/Format/Alto.php:104 | `htmlspecialchars`: the result holds no `<`, `>`, `"` or `'`, and every `&` in it begins one of the references `&amp;`, `&lt;`, `&gt;`, `&quot;`, `&#039;` (`Escaped`). A string without any of `& < > " '` is returned unchanged. Resolving the entity references of the result gives the input back. |
| Entities.EscapeEscaped | Classes/Format/Alto.php:104 | Any escaping that escapes `&` and `<` (`htmlspecialchars`, and the serializer's text and attribute escaping) yields well-formed character data: no `<`, and every `&` begins an entity reference. |
| Entities.RoundTrip | Classes/Format/Alto.php:104 | Resolving the entity references of an escaped string gives the string back, for every escaping that escapes `&`: `htmlspecialchars` and the serializer's text and attribute escaping. |
| MiniOcr.Serialize | Classes/Format/Alto.php:86 | `asXml` on the MiniOCR tree: the output starts with the XML declaration followed by the `<ocr` root tag, and ends with a line break. Its partner `MiniOcrReader.ReadSerialized` reads every output back to the tree. |
| MiniOcr.AsXml | Classes/Format/Alto.php:86-90 | The serializer as `getTextAsMiniOcr` sees it always returns a string, so the `''` fallback is not taken. The string starts with the XML declaration and the `<ocr` root tag. |
| MiniOcrReader.ReadSerialized | Classes/Format/Alto.php:86-88 | Reading the serialized MiniOCR document gives back exactly the tree that was serialized, so the output string determines every block, line, word text and coordinate string. |
| AltoProperties.BlocksAreTextBlocksBelowPrintSpace | Classes/Format/Alto.php:62 | A node is a selected block if and only if it is an ALTO TextBlock lying at any depth below one of the page's PrintSpace elements. Nested blocks are therefore selected too. |
| AltoProperties.KeyedMembers | Classes/Format/Alto.php:72-76 | The children a `children()` loop handles under a key are exactly the children with that key. |
| AltoProperties.KeyedAppend | Classes/Format/Alto.php:72-76 | Filtering the children by key distributes over concatenation, so the kept children keep their original order. |
| AltoProperties.MiniOcrMirrors | Classes/Format/Alto.php:70-79 | The MiniOCR tree has one `b` per selected block, in order. The i-th `b` has one `l` per TextLine child of the i-th block, and the j-th `l` has one `w` per String child of the j-th line. The k-th `w` has text CONTENT + " " and `x` equal to HPOS, VPOS, WIDTH and HEIGHT joined by single spaces. |
| AltoProperties.RawWordsAreBlockWords | Classes/Format/Alto.php:41-78 | On a plain page the raw-text words are the CONTENT values of the String children of the TextLine children of the selected blocks, block by block and line by line: the same words the MiniOCR loops visit, in the same order. |
| AltoProperties.RawWordsAreBlockStrings | Classes/Format/Alto.php:41 | On every page, plain or not, a word is selected for the raw text if and only if it is the CONTENT of an ALTO String child of an ALTO TextLine child of one of the selected TextBlocks (`Blocks`, the block set of `getTextAsMiniOcr`). Strings without CONTENT contribute nothing. |
| AltoProperties.MiniOcrWordsAreRawWords | Classes/Format/Alto.php:41-79 | On a plain page the `w` texts of the MiniOCR tree, read in order, are the raw-text words each followed by one space: as many, and the same. |
| AltoExamples.NestedBlocksReorderWords | Classes/Format/Alto.php:41-75 | On a page whose block holds a block with word `a` and then a line with word `b`, the raw text lists `a, b` and MiniOCR lists `b, a`. When `a != b` the MiniOCR words are therefore not the raw words. |
| Fulltext.Format.GetRawText | Classes/Common/FulltextInterface.php:33-35 | The interface's raw text of a tree is `""` without words. Otherwise its length is the total word length plus one separator between neighbours, each word stands at its start offset with a space before every word but the first, and it splits at spaces into the words when none contains a space. |
| Fulltext.Format.GetTextAsMiniOcr | Classes/Common/FulltextInterface.php:44-46 | The interface's MiniOCR of a tree is `""` exactly when the page has no text block. Otherwise it is a MiniOCR document that reads back as the page's MiniOCR tree. |
| Strings.Join | Classes/Format/Alto.php:43 | `implode`: no words give `""`. Otherwise the length is the total word length plus one separator between neighbours. |
| Strings.JoinLayout | Classes/Format/Alto.php:43 | The content of `implode`: word i stands at its start offset `WordStart(ws, i)` (the lengths of the words before it plus one per separator), and the separator stands just before every word but the first. With the length this fixes every character of the join. |
| Strings.SplitJoin | Classes/Format/Alto.php:43 | Splitting a join at the separator gives back exactly the words, provided none of them holds the separator. |
| Strings.JoinSplit | Classes/Format/Alto.php:43 | Joining the fields of any split gives back the string, so `Split`, used to state the raw-text round trip, is an exact inverse of `Join`. |
| UrlTemplate.Make | Classes/Controller/DocumentController.php:141-160 | `$make(page, double, pagegrid)`: the result is a prefix of the built URL and contains no `&cHash=`. When the built URL contains `&cHash=`, its first occurrence starts right after the result. Otherwise the result is the built URL. |
| Strings.Find | Classes/Controller/DocumentController.php:154 | `strpos`: the result, when there is one, is an occurrence of the pattern and no earlier index is one. When there is no result, the pattern occurs nowhere. |
| UrlTemplate.StripCHash | Classes/Controller/DocumentController.php:154-157 | The result is a prefix of the URL. When `&cHash=` occurs it starts right after the result, the result being everything before its first occurrence. Otherwise the URL is unchanged. Either way the result contains no `&cHash=`. |
| UrlTemplate.GetUrlTemplate | Classes/Controller/DocumentController.php:141-189 | The result is the template of the cut URL for page 2, double 1, grid 0 against the cut URL for page 3, double 0, grid 1. |
| UrlTemplate.TemplateOf | Classes/Controller/DocumentController.php:167-187 | The copying loop with `$lastIdx` writes exactly the template: position by position, the character of the first URL where the URLs agree and the placeholder where they differ. |
| UrlTemplate.PiecesMarkDifferences | Classes/Controller/DocumentController.php:169-186 | Position i holds the copied character exactly when the second URL has the same character there. Otherwise it holds PAGE_NO if and only if the character is `2`, DOUBLE_PAGE if and only if it is `1`, and PAGE_GRID if and only if it is anything else. So there is one placeholder per differing position, and a position past the end of the second URL differs. |
| UrlTemplate.RenderLength | Classes/Controller/DocumentController.php:169-187 | The template is as long as the first URL plus 6 per PAGE_NO, 10 per DOUBLE_PAGE and 8 per PAGE_GRID. |
| UrlTemplate.TemplateIsUrlIffAgree | Classes/Controller/DocumentController.php:169-187 | The template equals the first URL if and only if the two URLs agree at every position of the first. |
| UrlTemplate.FillGivesFirstUrl | Classes/Controller/DocumentController.php:164-187 | Filling the placeholders with `2`, `1`, `0` gives back the first URL, provided each of its differing characters is one of the arguments it was built with. |
| UrlTemplate.FillGivesSecondUrl | Classes/Controller/DocumentController.php:165-187 | Filling the placeholders with `3`, `0`, `1` gives back the second URL, provided the URLs have the same length and differ exactly in those arguments. |

## Left out

- Alto.GetRawText: the split round trip is stated only for words without a space, because `explode` cannot tell a space inside a word from a separator. For every word the layout (each word at its offset, a space between neighbours) is stated.
- Alto.GetCoordinates: the split round trip is stated only for attribute values without a space, for the same reason.
- Fulltext.Format.GetRawText: carries the same weakening as `Alto.GetRawText`. For words containing a space the layout is stated, but not the split round trip.
- AltoProperties.MiniOcrWordsAreRawWords: the agreement is proved for plain pages only. On other pages the outputs really differ (see `AltoExamples.NestedBlocksReorderWords`).
- `children()` namespace semantics: SimpleXML filters the children a `children()` call returns by namespace. The model iterates all element children and compares local names only.
- XPath and SimpleXML evaluation in general:
  - `registerXPathNamespace` is replaced by the fixed ALTO 2.x namespace in the name tests;
  - the tree is taken as already parsed;
  - text nodes are skipped by every selection.
- Serializer details: libxml's handling of characters outside ASCII, of control characters and of white space in attribute values is not modelled. The serializer escapes `& < >` in text and `& < > "` in attribute values, and never fails. The `''` fallback is stated for an arbitrary serializer parameter.
- Entity resolution: `Decode` resolves only the five predefined entities and `&#039;`. Those are the only references `htmlspecialchars` writes, and the only ones the model needs.
- `htmlspecialchars` flags and encodings other than the PHP 8.1 defaults, and invalid UTF-8 substitution.
- The URL builder chain inside `$make` (`uriBuilder`, `$GLOBALS['TSFE']`, the `forceAbsoluteUrl` setting, `requestData`). It is a call into the framework and becomes the parameter `build`.
- Byte semantics of `strlen` and `$a[$i]`: the URLs are sequences of characters. A multi-byte character is one position here and several in PHP.
- `DocumentController::mainAction`: document loading, page clamping, the structure lookup, `json_encode` and view assignment are framework plumbing and are not modelled.
- The client-side JavaScript that fills the placeholders. The lemmas `FillGivesFirstUrl` and `FillGivesSecondUrl` state what filling them gives.
- `Classes/ViewHelpers/MetadataWrapVariableViewHelper.php`: a wrapper around TYPO3's TypoScript parser with no logic of its own.
