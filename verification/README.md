# What ehttp's parsers, pool and send loop promise

ehttp is a small HTTP server. This project models the parts of it, and of the libraries it carries,
in which states, buffers and threads interlock, and proves what they are for:

- **Bipartite matching** (`Matching.dfy`): googlemock's search for augmenting paths over two mutually
  referring vectors finds a maximum matching although it tries every left node only once. The proof
  carries a dead region of nodes, which a failed search enlarges and a successful one never touches.
- **Multipart bodies** (`Multipart.dfy`, `MultipartTheorems.dfy`, `MultipartTexts.dfy`, `StringUtils.dfy`,
  `FormData.dfy`, `FormHandling.dfy`, `FormDataRoundTrip.dfy`): the streaming parser with its lookbehind
  buffer, which texts it takes and what they mean, the form that ehttp fills through its callbacks, and the
  printer; what the printer prints is read back.
- **The HTTP parser** (`HttpTypes.dfy`, `HttpVisit.dfy`, `HttpRun.dfy`, `HttpMarks.dfy`, `HttpBulk.dfy`,
  `HttpParser.dfy`, `HttpFeed.dfy`): the simple form reads one byte at a time; `http_parser_execute`,
  with its marks into the buffer, its bulk loops over names, values and bodies, and its second looks at
  a byte, refines it. So it does not matter where the network cuts a text.
- **What the parser recognises** (`CharacterSets.dfy`, `HttpRecognisers.dfy`, `HttpNames.dfy`,
  `HttpHeaders.dfy`, `HttpValues.dfy`, `HttpConnection.dfy`, `HttpLines.dfy`, `HttpFolding.dfy`,
  `HttpRequestLine.dfy`, `HttpBodies.dfy`, `HttpMessages.dfy`): methods, header names, lengths, `chunked`,
  Connection tokens, folded values, request lines, bodies of known length and chunked bodies. Methods, names,
  lengths, `chunked` and chunk sizes are defined without the parser's tables and states; for Connection
  tokens, which the parser does not always see, the parts it looks at are defined one after the other.
- **Which texts are refused** (`UrlGrammar.dfy`, `RequestLines.dfy`, `StatusLines.dfy`, `HeaderTexts.dfy`,
  `ChunkTexts.dfy`, `MessageEnds.dfy`): grammars for targets, request lines, status lines, header lines and
  the framing of chunks, each with the theorem that the parser takes exactly these texts; and where a message
  ends and another one may begin.
- **Requests** (`RequestState.dfy`, `RequestTheorems.dfy`, `Request.dfy`, `RequestHeads.dfy`,
  `RequestRoundTrip.dfy`, `ChunkedRequests.dfy`, `FormRequests.dfy`): the callbacks that fill in a request,
  `parse_request`, what headers-complete lets pass, and the round trips from a printed or a chunked request,
  and from a printed form, to the request object.
- **Responses** (`Response.dfy`, `ResponseRoundTrip.dfy`, `HttpServer.dfy`): the text of a response, the
  round trip through the parser in response mode, and the loop that sends it in pieces.
- **The thread pool** (`ThreadPool.dfy`): workers, submitters and the main thread, interleaved at every
  lock, unlock, wait, signal and broadcast; what never happens, and what has happened once nothing goes on.
- **URLs** (`Url.dfy`, `HostGrammar.dfy`, `AcceptedUrls.dfy`, `UrlRoundTrip.dfy`): which URLs are accepted,
  where their fields stand, and the round trip from printed parts.

One character is one byte. A trace (`Traces.dfy`) is the list of callbacks; a merged trace joins adjacent
data callbacks of one kind, which is what a client that appends the pieces sees. Parsers and other objects
that change in place are classes; each method is proved against a function of the old state, and the
promises are proved about those functions.

Some findings stand beside the promises:

- The `unhex` table (`deps/http-parser/http_parser.c:224`) initialises 128 of its 256 entries, so every byte
  from 0x80 on counts as the digit 0 in a chunk size: the one byte 0x80 is the size of a last chunk.
- A multipart text may be cut anywhere exactly when no header name in it runs into a CR.
- Content-Length may be as large as 18446744073709551609, and a chunk as long as 0xFFFFFFFFFFFFFFEF: the
  overflow tests refuse a few values that 64 bits would hold.
- A POST that has header lines is let pass exactly when its last Content-Length line has a value, and so no
  POST with a chunked body is. It is then refused like any broken request: the return value that stands for
  a missing length never leaves `parse_request`, so the 411 answer that `src/http_server.cpp:303-307`
  prepares is never given. A POST without any header line is let pass, because its method is never set.
- A listed Connection token is seen exactly when the parser looks at its part. It skips a part behind a
  comma at which a match breaks off, and behind a comma that begins the value; and it sees nothing any more
  behind a later part that it looks at and that is empty or begins with a byte such as TAB, `(` or `_`.
- A Transfer-Encoding header that goes on over a further line, be it a line of one blank only, does not ask
  for chunks, whatever its value, and neither does such a `Connection: close` close the connection: the blank
  makes the parser forget the header it is in.
- A short send on the last piece of a response loses its end, and a response whose pieces all have the full
  4096 bytes closes even a kept connection.
- A fragment directly behind the host of a URL is refused, although section 3 of RFC 3986 allows it; and a
  CONNECT target may have an `@` in front of its host and a `?` behind its port, as in `@h:80?`.

## Model

| member | source | states |
|---|---|---|
| Matching.MaxBipartiteMatchState.constructor | deps/googletest/googlemock/src/gmock-matchers.cc:200-204 | both vectors start unused, and so mutually referent |
| Matching.MaxBipartiteMatchState.TryAugment | deps/googletest/googlemock/src/gmock-matchers.cc:243-285 | a failed search changes neither vector and exhausts everything it reached; a successful one matches exactly one more left node and leaves the vectors mutually referent; a node of a dead region is never matched, now or later |
| Matching.FailedSearchExtendsDead | deps/googletest/googlemock/src/gmock-matchers.cc:208-221 | what a failed search has seen enlarges the dead region by the node it started from |
| Matching.DeadRegionCertifiesMaximum | deps/googletest/googlemock/src/gmock-matchers.cc:208-221 | if every unmatched left node is dead, no matching of the graph is larger |
| Matching.MaxBipartiteMatchState.Compute | deps/googletest/googlemock/src/gmock-matchers.cc:207-238 | the pairs listed are a matching of maximum cardinality, each listed once |
| Matching.FindMaxBipartiteMatching | deps/googletest/googlemock/src/gmock-matchers.cc:307-310 | the same, from an empty state |
| Matching.FindPairing | deps/googletest/googlemock/src/gmock-matchers.cc:327-354 | true exactly when some matching satisfies every matcher |
| Matching.VerifyAllElementsAndMatchersAreMatched | deps/googletest/googlemock/src/gmock-matchers.cc:443-496 | true exactly when no element and no matcher is without an edge |
| Matching.PreCheckIsNecessary | deps/googletest/googlemock/src/gmock-matchers.cc:443-496 | the pre-check never rejects a graph that has a full pairing |
| Traces.MergeIsMerged | deps/http-parser/http_parser.c:129-152 | a merged trace never holds two adjacent data callbacks of one kind |
| Traces.TextMerge | deps/http-parser/http_parser.c:129-152 | merging callbacks neither loses nor reorders text |
| Multipart.Parser.constructor | deps/multipart-parser-c/multipart_parser.c:80-97 | the lookbehind buffer starts empty in an allocation of its own |
| Multipart.Parser.ReadAlmostBoundaryByte | deps/multipart-parser-c/multipart_parser.c:236-247 | behind CR the lookbehind holds it; LF is added, and at any other byte the CR is delivered and the byte looked at again |
| Multipart.Parser.ReadBoundaryByte | deps/multipart-parser-c/multipart_parser.c:249-262 | while a boundary is matched the lookbehind holds CR LF and the matched prefix; a mismatch delivers exactly that and looks at the byte again |
| Multipart.Parser.Execute | deps/multipart-parser-c/multipart_parser.c:111-306 | terminates, and takes a buffer whole exactly when reading byte by byte does, with the same state and merged callbacks |
| MultipartTheorems.CutsDoNotShowIffNoNameDangles | deps/multipart-parser-c/multipart_parser.c:150-206 | an accepted text gives the same trace under every cut exactly when no nonempty header name in it runs into CR |
| MultipartTheorems.CutsDoNotShowIffTextDoesNotDangle | deps/multipart-parser-c/multipart_parser.c:150-262 | for a boundary without CR that is a property of the text: no header section holds a nonempty stretch of name bytes before a CR |
| MultipartTheorems.ANameDangles | deps/multipart-parser-c/multipart_parser.c:156-160 | an accepted text of eight bytes in which a name runs into CR, and which some cut changes |
| MultipartTheorems.RejectionIgnoresCuts | deps/multipart-parser-c/multipart_parser.c:111-306 | whether a text is accepted never depends on the cuts |
| MultipartTheorems.PartDataEndsAtFirstDelimiter | deps/multipart-parser-c/multipart_parser.c:208-262 | the data of a part are exactly the text before the first CRLF and boundary, with nothing lost, repeated or reordered |
| MultipartTheorems.ScanWithoutDelimiter | deps/multipart-parser-c/multipart_parser.c:208-262 | without a delimiter all is delivered but for the longest last stretch that may begin one |
| MultipartTexts.TextIsMeant | deps/multipart-parser-c/multipart_parser.c:111-306 | a text in one buffer is accepted exactly when it has a meaning as lines, headers and parts, and the callbacks are those of its meaning |
| MultipartTexts.NameBytesAreLetters | deps/multipart-parser-c/multipart_parser.c:172-179 | the characters of a part's header names are the letters and the hyphen |
| StringUtils.SplitString | src/string_utils.cpp:5-16 | the tokens appended are those that repeated getline yields |
| StringUtils.SplitJoin | src/string_utils.cpp:5-16 | splitting undoes joining, except that an empty last token is lost |
| StringUtils.ToLower | src/string_utils.cpp:18-22 | the string in place becomes its case-folded form |
| FormData.EncodeMultipartFormData | deps/googletest/googlemock/scripts/upload.py:498-530 | the body is the printed lines of all fields and then all files, joined by CRLF |
| FormData.HandleMerged | src/sim_parser.cpp:364-480 | the form depends on the merged callbacks only, as long as header names and values come whole |
| FormData.RequestBody.HandleLog | src/sim_parser.cpp:364-480 | makes the callbacks up to the first that reports an error |
| FormData.RequestBody.ParseMultipartData | src/sim_parser.cpp:483-528 | 0 with nothing read where the content type names no boundary; otherwise 0 exactly when parser and callbacks accept the body, with the form they make of it |
| FormHandling.BoundaryIsExact | src/sim_parser.cpp:490-503 | the boundary is what stands behind the one equals sign behind the one semicolon, up to a NUL; any other content type names none |
| FormHandling.DispositionValueIsExact | src/sim_parser.cpp:383-402 | a value is what stands within the first and last character behind the one equals sign, or empty between two quotes; anything else is an error |
| FormHandling.DispositionIsRead | src/sim_parser.cpp:404-427 | a disposition gives its item the name and, if it has a third part, the file name, whatever comes behind |
| FormHandling.NoDisposition | src/sim_parser.cpp:404-411 | a text without a semicolon, or with nothing behind it, is no disposition |
| FormHandling.FormKeepsData | src/sim_parser.cpp:364-480 | a form has one item for each Content-Disposition, and its items hold all data callbacks, in order |
| FormHandling.ItemsComeFirst | src/sim_parser.cpp:429-480 | before the first Content-Disposition the callbacks succeed exactly if there is no value, no data, no Content-Type and no end of a part |
| FormHandling.ParametersAreItems | src/sim_parser.cpp:194-204 | the parameters of a form are the names and data of its items, in order, if the text reaches its closing line, and none otherwise |
| FormDataRoundTrip.BoundaryIsRecovered | src/sim_parser.cpp:490-503 | the boundary is recovered from the content type that the printer gives |
| FormDataRoundTrip.BodyIsText | deps/googletest/googlemock/scripts/upload.py:498-530 | the printed lines, joined, are delimiter, headers, blank line and data of each part, and the closing line |
| FormDataRoundTrip.ReadBody | deps/multipart-parser-c/multipart_parser.c:111-306 | the parser accepts a printed body and reports each part's headers and data |
| FormDataRoundTrip.HandleParts | src/sim_parser.cpp:364-480 | from those callbacks come exactly the items printed, in order |
| FormDataRoundTrip.PrintAndRead | deps/googletest/googlemock/scripts/upload.py:498-530 | every list of fields and files comes back: item by item the name, the file name, the content type and the data printed, and as parameters the names and values of the fields and then the names and contents of the files |
| HttpRun.VisitKeeps | deps/http-parser/http_parser.c:713-2054 | every visit to a state keeps the reachable states, in which all asserts of the switch hold, and every second look at a byte lowers a rank |
| HttpRun.RunAppend | deps/http-parser/http_parser.c:707-713 | reading a text in two parts is reading it whole |
| HttpMarks.VisitMarks | deps/http-parser/http_parser.c:681-705 | outside bodies at most the mark of the state is set, and a visit calls back for that mark only |
| HttpBulk.EndOfBuffer | deps/http-parser/http_parser.c:2064-2076 | at the end of a buffer at most one mark is set, and it points into the buffer |
| HttpBulk.VisitAgrees | deps/http-parser/http_parser.c:713-2054 | a visit with marks into a longer buffer does what it does in a one-byte buffer |
| HttpBulk.NameProgress | deps/http-parser/http_parser.c:1248-1366 | one round of the bulk loop over a name is one byte of the simple form |
| HttpBulk.ValueProgress | deps/http-parser/http_parser.c:1469-1668 | one round of the bulk loop over a value is one byte of the simple form |
| HttpBulk.BodyRun | deps/http-parser/http_parser.c:1873-1907 | any number of body bytes taken at once is as many bytes of the simple form |
| HttpParser.Parser.constructor | deps/http-parser/http_parser.c:2147-2156 | a new parser has no error and the start state of its type |
| HttpParser.Parser.ReadName | deps/http-parser/http_parser.c:1248-1382 | the loop over a header name, counting header bytes only at its end, refines the simple form |
| HttpParser.Parser.ReadValue | deps/http-parser/http_parser.c:1469-1668 | the same for a header value, with the byte skipped behind a stretch of maximal length |
| HttpParser.Parser.ReadBody | deps/http-parser/http_parser.c:1873-1914 | the same for bodies |
| HttpParser.Parser.Look | deps/http-parser/http_parser.c:713-2054 | looking at a byte until a state moves on terminates and refines the simple form |
| HttpParser.Parser.FlushMarks | deps/http-parser/http_parser.c:2055-2076 | the callbacks at the end of a buffer deliver the bytes behind the mark that is left |
| HttpParser.Parser.ExecuteEnd | deps/http-parser/http_parser.c:660-679 | an empty buffer, which means the end of the input, completes a body that ends with the connection, is fine between messages, and is an error anywhere else |
| HttpParser.Parser.Execute | deps/http-parser/http_parser.c:638-2085 | accepts all bytes of a buffer exactly when the byte-by-byte run does, and then fields and merged callbacks agree; every data callback is a slice of the buffer |
| HttpFeed.Feed | deps/http-parser/http_parser.c:638-2085 | every partition of a text into nonempty buffers gives the outcome, the fields and the merged callbacks of the whole text |
| HttpRecognisers.FollowsIsPrefix | deps/http-parser/http_parser.c:963-1014 | a word that the method state follows begins the name of the method it stands for |
| HttpRecognisers.NameIsFollowed | deps/http-parser/http_parser.c:920-1014 | every method name is followed to its own method |
| HttpRecognisers.MethodsAreRecognisedExactly | deps/http-parser/http_parser.c:920-1014 | a word and a space get through exactly when the word is one of the 34 names, spelled out one by one, and then the method is its code |
| CharacterSets.AlphaNumerics | deps/http-parser/http_parser.c:416-420 | letters, digits and hexadecimal digits are these, spelled out |
| CharacterSets.DigitValues | deps/http-parser/http_parser.c:224-233 | a digit's value, decimal or hexadecimal of either case, is its place among the digits |
| CharacterSets.NoHexValue | deps/http-parser/http_parser.c:224-233 | in ASCII exactly the hexadecimal digits have a value; every byte above has the value 0 |
| CharacterSets.FoldedLetters | src/string_utils.cpp:18-22 | case folding takes each of the 26 capitals to its small letter, and changes no other character |
| CharacterSets.TokenCharacters | deps/http-parser/http_parser.c:189-221 | the characters of header names, spelled out, and that they are their own lower case |
| CharacterSets.ValueCharacters | deps/http-parser/http_parser.c:446-447 | the characters of header values: no controls but tab and line ends, and no DEL |
| CharacterSets.UrlCharacters | deps/http-parser/http_parser.c:243-276 | the characters of paths, spelled out |
| CharacterSets.UserInfoCharacters | deps/http-parser/http_parser.c:421-426 | the characters of userinfo, spelled out |
| CharacterSets.HostCharacters | deps/http-parser/http_parser.c:2176-2256 | the characters of host names, IPv6 addresses and zones, spelled out |
| CharacterSets.UnreservedCharacters | deps/http-parser/http_parser.c:416-433 | the unreserved characters and the percent sign of section 2 of RFC 3986 are among those of paths, userinfo and zones, and all but `_`, `~` and `%` among those of host names |
| HttpNames.NameIsTracked | deps/http-parser/http_parser.c:1198-1363 | header state and index always tell which special name the case-folded bytes begin |
| HttpNames.NamesAreRecognisedExactly | deps/http-parser/http_parser.c:1198-1382 | a name and a colon get through exactly when the name is a token; the header state names a special header exactly when the case-folded name is that header's |
| HttpHeaders.ValueRun | deps/http-parser/http_parser.c:1384-1668 | a value is delivered whole, and byte after byte decides the header state |
| HttpHeaders.SettleStep | deps/http-parser/http_parser.c:1681-1712 | the byte after a line, unless it folds the line, finds the flags of the finished header set |
| HttpValues.OrdinaryValue | deps/http-parser/http_parser.c:1451-1454 | the value of an ordinary header is refused exactly for a control character after its first byte, and changes no length |
| HttpValues.LengthsAreExact | deps/http-parser/http_parser.c:1417-1431 | a Content-Length value is accepted exactly when it is a numeral within the limit, with spaces behind it, and the first of its message; content_length is then its value |
| HttpValues.ChunkedIsExact | deps/http-parser/http_parser.c:1566-1574 | the value of Transfer-Encoding leads to the state for chunked exactly when, case-folded, it is the word and spaces |
| HttpConnection.PartsJoin | deps/http-parser/http_parser.c:1626-1631 | the parts hold no comma, and joined by commas they are the value |
| HttpConnection.ConnectionIsExact | deps/http-parser/http_parser.c:1440-1652 | a Connection value sets a flag exactly if one of the parts that the parser looks at is that token, and changes nothing else |
| HttpConnection.ConnectionIsSound | deps/http-parser/http_parser.c:1576-1652 | a Connection value sets a flag only if it lists that token between its commas |
| HttpConnection.PlainListsAreSeen | deps/http-parser/http_parser.c:1576-1652 | where no part is empty, misleads the parser or breaks off in a token, it sets a flag exactly if it lists that token |
| HttpConnection.SingleTokensAreExact | deps/http-parser/http_parser.c:1576-1652 | without commas a token is recognised exactly when the value is that token |
| HttpConnection.BrokenMatchSwallows | deps/http-parser/http_parser.c:1595-1624 | behind a part that breaks off in a token, or a comma that begins the value, the next part is not looked at, but the one after it is |
| HttpConnection.LostForGood | deps/http-parser/http_parser.c:1576-1593 | behind a later part that is looked at and is empty or begins with a misleading byte, nothing is seen any more |
| HttpConnection.ListedCloseIsMissed | deps/http-parser/http_parser.c:1576-1624 | four values that list close and leave the flags as they were |
| HttpLines.LineRun | deps/http-parser/http_parser.c:1198-1755 | a whole header line delivers its name and its value, whatever blanks stand between them, an empty value too |
| HttpLines.LineIsExact | deps/http-parser/http_parser.c:1198-1755 | name and value tell whether a line is accepted, and all flags and the length after it |
| HttpLines.ChunkedFlagIsExact | deps/http-parser/http_parser.c:1693-1708 | a line sets F_CHUNKED exactly when it is a Transfer-Encoding line with the value chunked and spaces |
| HttpLines.ConnectionFlagsAreExact | deps/http-parser/http_parser.c:1693-1712 | a line sets the flags of Connection tokens exactly if it is a Connection or Proxy-Connection line in which that token is seen |
| HttpFolding.FoldedLineRun | deps/http-parser/http_parser.c:1384-1755 | a header value that goes on over further lines is delivered as one value, each line with its leading blanks; a control character in it is refused |
| HttpFolding.LateValueRun | deps/http-parser/http_parser.c:1384-1755 | a value that begins on the second line does what it does on one line |
| HttpFolding.FoldedCodingIsLost | deps/http-parser/http_parser.c:1681-1692 | a Transfer-Encoding header that goes on over a further line does not set F_CHUNKED |
| HttpFolding.FoldedTokenIsLost | deps/http-parser/http_parser.c:1681-1692 | a Connection header with one token that goes on over a further line sets no flag |
| HttpFolding.FoldedLengthIsExact | deps/http-parser/http_parser.c:1681-1692 | a Content-Length header goes on over a further line exactly if that line holds a blank and then spaces only, and the length stays |
| HeaderTexts.HeaderTextIsExact | deps/http-parser/http_parser.c:1198-1755 | a line with CR LF or LF behind it gets through exactly if it has a name, a colon, and a value that is right for the name; name and value are delivered as they stand there |
| HeaderTexts.LoneReturnFails | deps/http-parser/http_parser.c:1670-1679 | a CR in a header line that LF does not follow is refused |
| HttpBodies.BodyOwes | deps/http-parser/http_parser.c:1873-1907 | after part of a body, content_length is the count still owed |
| HttpBodies.BodyIsDelivered | deps/http-parser/http_parser.c:1873-1923 | a body of known length is delivered to the last byte and no further, then the message is complete, once |
| HttpBodies.ChunkSizesAreExact | deps/http-parser/http_parser.c:1925-1976 | a chunk size is accepted exactly when every byte is a hexadecimal digit or above ASCII and the value is within the limit; bytes above ASCII count as 0 |
| HttpBodies.AsciiSizesAreNumerals | deps/http-parser/http_parser.c:1925-1976 | an ASCII chunk size is accepted exactly when it is a hexadecimal numeral within the limit, and then it is its value |
| HttpBodies.HighByteEndsBody | deps/http-parser/http_parser.c:224-233 | one byte above ASCII is no numeral, and still the size of a last chunk |
| HttpBodies.ChunkHeaderRun | deps/http-parser/http_parser.c:1925-2005 | the line of a chunk, with any spelling of the size and any extension, gives one chunk-header |
| HttpBodies.ChunkRun | deps/http-parser/http_parser.c:1925-2045 | a chunk's data are delivered between a chunk-header and a chunk-complete |
| ChunkTexts.ChunkLineIsExact | deps/http-parser/http_parser.c:1925-2005 | a line begins a chunk exactly if what stands before its first `;` or space is a chunk size; the rest is ignored |
| ChunkTexts.ChunkLineNeedsFeed | deps/http-parser/http_parser.c:1990-2005 | a CR in that line that LF does not follow is refused |
| ChunkTexts.ChunkEndIsExact | deps/http-parser/http_parser.c:2030-2045 | behind its data a chunk has CR LF, and any other two bytes are refused |
| ChunkTexts.ChunkLimit | deps/http-parser/http_parser.c:1968-1976 | the largest size of a chunk is 0xFFFFFFFFFFFFFFEF |
| ChunkTexts.LengthLimit | deps/http-parser/http_parser.c:1535-1546 | the largest Content-Length is 18446744073709551609 |
| HttpMessages.BlockRun | deps/http-parser/http_parser.c:1198-1755 | a block of header lines delivers them all in order |
| HttpMessages.BlockIsExact | deps/http-parser/http_parser.c:1198-1755 | a block is taken exactly if every line is fine by itself and at most one gives a length; all flags and the length are read off its lines |
| HttpMessages.BlockFails | deps/http-parser/http_parser.c:1198-1755 | any other block makes the parser fail |
| HttpMessages.HeadersEnd | deps/http-parser/http_parser.c:1757-1871 | the blank line leads to headers-complete, and from there to the body that the headers announce |
| HttpMessages.TrailersEnd | deps/http-parser/http_parser.c:1757-1766 | the blank line behind trailers gives chunk-complete and message-complete |
| HttpMessages.ChunkedBodyIsDelivered | deps/http-parser/http_parser.c:1925-2045 | every chunked body, with any spelling, extensions and trailers, gives its chunks in order, headers and completions in turn, and one message-complete at the end |
| HttpMessages.ChunkedTextIsJoined | deps/http-parser/http_parser.c:2007-2045 | the body callbacks together are the chunks' data joined |
| HttpMessages.NoticesComeInTurn | deps/http-parser/http_parser.c:1990-2045 | chunk-header and chunk-complete come in turn, once for each chunk and once for the last one |
| MessageEnds.AnswersAreObeyed | deps/http-parser/http_parser.c:1787-1871 | at the blank line 0 goes on to the body, 1 skips it, 2 makes it an upgrade and any other answer is an error; CONNECT and upgrades without a body end there |
| MessageEnds.UpgradeStops | deps/http-parser/http_parser.c:1826-1842 | a tunnel stops the parser behind the blank line, and the bytes that follow are left |
| MessageEnds.BlankLineNeedsFeed | deps/http-parser/http_parser.c:1757-1760 | a CR at the start of a line that LF does not follow is refused |
| MessageEnds.BlankFeedAlone | deps/http-parser/http_parser.c:1209-1214 | LF alone is a blank line, too |
| MessageEnds.NextMessageIsExact | deps/http-parser/http_parser.c:2089-2132 | another message is expected exactly if the connection is kept, by default from HTTP/1.1 on, and the end of this one can be told without the end of the connection |
| MessageEnds.ResponseWithoutLength | deps/http-parser/http_parser.c:1855-1868 | a response without a length ends at its blank line if its status is 1xx, 204 or 304, and with the connection otherwise |
| MessageEnds.EofBodyIsDelivered | deps/http-parser/http_parser.c:1910-1914 | such a body is delivered whole |
| MessageEnds.LineEndsAreSkipped | deps/http-parser/http_parser.c:716-770 | line ends before a message are skipped |
| MessageEnds.NothingComesAfterClose | deps/http-parser/http_parser.c:716-728 | behind a message that closes the connection exactly line ends are taken |
| MessageEnds.HeaderLimit | deps/http-parser/http_parser.c:154-163 | a header of 81920 bytes is as long as one may be |
| HttpRequestLine.AcceptedUrlIsTarget | deps/http-parser/http_parser.c:1016-1087 | every URL that http_parser_parse_url accepts gets through the request line |
| HttpRequestLine.UrlRun | deps/http-parser/http_parser.c:1016-1087 | a URL is delivered whole or refused at the byte that does not fit |
| HttpRequestLine.RequestLineIsRecovered | deps/http-parser/http_parser.c:920-1196 | a request line gets through exactly when its target may end where it does; method, version and target are those written |
| UrlGrammar.TargetsAreExact | deps/http-parser/http_parser.c:490-636 | the request line takes exactly the targets of a grammar of schemes, authorities, paths, queries and fragments |
| RequestLines.RequestLineIsExact | deps/http-parser/http_parser.c:920-1196 | a line with CR LF or LF behind it gets through exactly if it is one of the 34 words, a target of that grammar, and perhaps a version, with spaces between them; method, target and version are then those of the line |
| RequestLines.LoneReturnFails | deps/http-parser/http_parser.c:1187-1196 | a CR in a request line that LF does not follow is refused |
| StatusLines.StatusLineIsExact | deps/http-parser/http_parser.c:763-918 | a line gets through as a status line exactly if it is a version, a code of at most 999, and perhaps a phrase; these are then what the parser has |
| RequestState.FoldMerged | src/sim_parser.cpp:282-362 | a request depends on the merged callbacks only, not on how they were cut |
| RequestState.MultipartIsNamed | src/sim_parser.cpp:541-542 | the search finds multipart/form-data exactly if the content type has it in it, wherever |
| RequestTheorems.VisitOwes | deps/http-parser/http_parser.c:1198-1755 | each visit makes a value callback due, or pays it, as its state says |
| RequestTheorems.ComparisonNeverFails | src/sim_parser.cpp:335-341 | fields and values always agree in number at headers-complete: without the comparison every run is the same |
| RequestTheorems.LineStays | src/sim_parser.cpp:290-305 | from the first header field to the end of the message the method and version that the callbacks see do not change |
| RequestTheorems.SameRequest | src/sim_parser.cpp:282-362 | a request filled in piece by piece is the request of the whole text |
| RequestTheorems.RunIsClean | src/sim_parser.cpp:348-352 | a parser that goes on has a request without error, and one that stops never lacks a length |
| Requests.Request.constructor | src/sim_parser.cpp:553-570 | a new request goes with a new parser |
| Requests.Request.SsOnUrl | src/sim_parser.cpp:282-288 | pieces of the URL are appended |
| Requests.Request.SsOnHeaderField | src/sim_parser.cpp:290-318 | the first field sets method and version; a field begins after a value and grows otherwise |
| Requests.Request.SsOnHeaderValue | src/sim_parser.cpp:320-333 | a value begins after a field and grows otherwise |
| Requests.Request.SsOnHeadersComplete | src/sim_parser.cpp:335-354 | all headers enter the map under lower-case names; a POST without length is an error |
| Requests.Request.SsOnBody | src/sim_parser.cpp:356-362 | pieces of the body are appended |
| Requests.Request.SsOnMessageComplete | src/sim_parser.cpp:530-551 | a body whose content type has multipart/form-data in it is read into the form, or the request is in error; any other leaves the form empty |
| Requests.Request.ParseRequest | src/sim_parser.cpp:574-599 | too large, refused, in error, unfinished or finished, as the whole text so far says; never the value for a missing length |
| Requests.ReceiveRequest | src/http_server.cpp:275-312 | every partition of one message into reads gives the same result and the same URL, method, headers, raw body and form |
| RequestHeads.HeadRun | deps/http-parser/http_parser.c:920-1755 | a request line and any header lines the parser takes are delivered in order, whatever text follows |
| RequestHeads.EndOfHead | deps/http-parser/http_parser.c:1773-1785 | flags, length and upgrade of a request are those its lines ask for |
| RequestHeads.LastValueIsMapped | src/sim_parser.cpp:264-267 | what the header map gives for a name is the value of its last line |
| RequestHeads.HeadersAnswer | src/sim_parser.cpp:335-354 | headers-complete objects exactly to a POST with header lines whose last Content-Length line is missing or empty |
| RequestHeads.HeadersPassExactly | deps/http-parser/http_parser.c:1757-1871 | behind its blank line a request goes on to its body exactly if it has not both codings of length and headers-complete does not object |
| RequestHeads.PostIsRefused | src/sim_parser.cpp:348-352 | a POST with header lines and no length is refused, and every POST with a chunked body |
| RequestHeads.ReceivePostWithoutLength | src/sim_parser.cpp:581-594 | such a POST, cut anywhere and whatever follows its head, gives -1 |
| RequestHeads.ReceiveShortPost | src/sim_parser.cpp:581-594 | a POST with the one header `A: b` gives -1 |
| RequestHeads.LastLineCounts | src/sim_parser.cpp:264-267 | in the header map the last line of a name counts, in whatever case |
| RequestHeads.MapIsExact | src/sim_parser.cpp:257-276 | a name stands in the map exactly if a line has it in some case, or it is content-type, which a look-up enters; its value is that of the last such line |
| RequestRoundTrip.MessageIsRead | deps/http-parser/http_parser.c:638-2085 | a printed request gives one complete message, and not before its last byte; another one is expected exactly when the client keeps the connection |
| RequestRoundTrip.ReceivePrinted | src/sim_parser.cpp:574-599 | what a client prints, cut anywhere, is received with its method by name, target, version, body, the last value of each header name, and the form that its content type asks for; the result is 0, or -3 exactly if that form cannot be read |
| FormRequests.ReceiveForm | src/sim_parser.cpp:483-551 | a printed form, sent with the content type that the printer returns and cut anywhere, gives 0, and the server holds its fields and files, as items and as parameters |
| FormRequests.ReceiveFormText | src/sim_parser.cpp:483-599 | for any body with such a content type the result is -3 exactly if the text has no meaning or a callback objects to it, and otherwise 0 with the form it makes |
| FormRequests.ReceiveOther | src/sim_parser.cpp:530-551 | a body whose content type does not have multipart/form-data in it gives 0 and no form, whatever it is |
| ChunkedRequests.FeedChunked | deps/http-parser/http_parser.c:1925-2045 | a chunked request, cut anywhere, is taken whole: its body callbacks are the chunks' data joined, chunk notices come in turn, and message-complete comes once, at the end |
| ChunkedRequests.ReceiveChunked | src/sim_parser.cpp:574-599 | a chunked request that is no POST, cut anywhere, is received with its method by name, target, version, header map, the chunks' data joined, and the form in them; the result is 0, or -3 exactly if that form cannot be read |
| Responses.AssignIsUpdate | src/sim_parser.cpp:622-624 | setting a header keeps the map in order, sets that name and leaves the others alone |
| Responses.LessIsLexicographic | src/sim_parser.cpp:622-624 | the order of the map is that of the first difference, a prefix first |
| Responses.Response.SetHead | src/sim_parser.cpp:622-624 | the same for the response's headers |
| Responses.EntriesAreWritten | src/sim_parser.cpp:632-652 | for every map of headers: which names are written, how often, and with which value |
| Responses.Response.GenResponse | src/sim_parser.cpp:632-658 | the stream gets status line, headers, blank line and body; of the headers, the user's come last in their order, Content-Type and Content-Length stand there once with the user's value or else the default, Server and Connection once more than the user set them, first with the server's value, and no other name is added |
| Responses.Response.ReadSome | src/sim_parser.cpp:660-668 | the next bytes from the cursor on; 0 exactly when the end has been run into |
| Responses.Response.Rollback | src/sim_parser.cpp:670-677 | the cursor moves back and the end-of-file condition is cleared |
| ResponseRoundTrip.StatusLineRun | deps/http-parser/http_parser.c:763-918 | version, status and reason phrase are those written, an empty phrase too |
| ResponseRoundTrip.ResponseIsRecovered | src/sim_parser.cpp:632-658 | parsing a response gives its status, those headers in order, its body and one message-complete; another response is expected exactly when the connection is kept |
| ResponseRoundTrip.ReceiveResponse | src/sim_parser.cpp:632-658 | the same for a response that arrives cut anywhere |
| HttpServer.HttpContext.OnWriteable | src/http_server.cpp:315-369 | whatever the socket takes, the bytes accepted are a gap-free prefix that ends at the cursor while the call asks to go on; where the connection is kept, request and response are new ones |
| HttpServer.HttpContext.SendResponse | src/http_server.cpp:315-369 | over any run of short sends the whole response is delivered exactly when the last send is complete; with complete sends it always is, in as many calls as it has full pieces and one more |
| HttpServer.LoseLastByte | src/http_server.cpp:345-368 | a short send on the last piece of 130 bytes loses one, and the connection goes on |
| HttpServer.CloseKeptConnection | src/http_server.cpp:333-368 | a response of 4096 bytes is sent whole and closes a kept connection |
| ThreadPools.ExclusiveKept | src/threadpool.cpp:124-161 | no interleaving puts two threads into a critical section |
| ThreadPools.ConservedKept | src/threadpool.cpp:150-157 | every step keeps accepted tasks exactly queued, in hand and finished |
| ThreadPools.NoLostWakeupKept | src/threadpool.cpp:124-161 | every step keeps: while a worker is parked, somebody comes for each queued task |
| ThreadPools.InvKept | src/threadpool.cpp:98-181 | every step of any thread keeps all of this, spurious wakeups included |
| ThreadPools.EveryRunIsSafe | src/threadpool.cpp:98-181 | in every reachable state of one start/stop cycle tasks are conserved and started in order, the queue is at most one over its limit, no wakeup is lost, and a destroyed pool has no worker and no task in hand |
| ThreadPools.NothingStartsAfterStop | src/threadpool.cpp:98-107 | once the stop flag is set no task is taken any more |
| ThreadPools.QueuedTaskIsSought | src/threadpool.cpp:134-141 | with a task queued and a worker parked, some worker can take the free lock |
| ThreadPools.WorkersRunOut | src/threadpool.cpp:143-151 | after the broadcast the workers take a bounded number of steps, however they are interleaved |
| ThreadPools.JoiningEnds | src/threadpool.cpp:109-118 | from every such state joining can be brought to its end within a bound known beforehand |
| ThreadPools.EveryRunJoins | src/threadpool.cpp:109-118 | once joining has begun every run is short, whatever the interleaving, and one that cannot go on without a new submission has joined every worker |
| ThreadPools.TaskIsTakenExactly | src/threadpool.cpp:166-180 | with no limit, or a queue no longer than the limit, the task is queued last and the call comes to return 0; otherwise it returns -1 and nothing changes |
| ThreadPools.CallQueuesTask | src/threadpool.cpp:166-180 | where the mutex is free any idle thread can make the whole call: the task is queued, and any one of the parked workers is woken, if there are any |
| ThreadPools.CallIsRefused | src/threadpool.cpp:169-173 | a whole call that is refused leaves the pool as it was |
| ThreadPools.WorkerGoesRound | src/threadpool.cpp:124-161 | a worker that wakes up for no reason runs the first task, is parked again if there is none, and exits if the pool is stopped |
| ThreadPools.EveryRunServes | src/threadpool.cpp:124-181 | while the pool serves, every run is short, whatever the interleaving, and where nothing can go on without somebody outside every accepted task has been run and every worker is parked |
| ThreadPools.PoolStarts | src/threadpool.cpp:53-78 | from a new pool with workers there is a run after which it serves and all of them look for tasks |
| ThreadPools.PoolStops | src/threadpool.cpp:98-107 | where the mutex is free a serving pool can be stopped, and then nobody stays parked |
| ThreadPools.ThreadPool.constructor | src/threadpool.cpp:22-28 | a new pool satisfies the invariant |
| ThreadPools.ThreadPool.AddTask | src/threadpool.cpp:166-180 | unless the queue is longer than a positive limit the task is queued last, and the call goes on to its signal; otherwise it returns -1, with queue and history as they were |
| ThreadPools.ThreadPool.PickTask | src/threadpool.cpp:134-154 | a worker parks on an empty queue, leaves a stopped pool, and takes the first task otherwise |
| ThreadPools.ThreadPool.BroadcastStop | src/threadpool.cpp:103-107 | the broadcast releases every parked worker and no other |
| ThreadPools.ThreadPool.Perform | src/threadpool.cpp:98-181 | the object does what the step function says, and keeps the invariant |
| Urls.AcceptedUrlIsWellFormed | deps/http-parser/http_parser.c:2346-2466 | in an accepted URL every field that is set is a nonempty slice, no two overlap, a scheme has a host, the port is the value of its slice and at most 65535, and a CONNECT target has host and port only |
| Urls.Url.ParseHost | deps/http-parser/http_parser.c:2258-2338 | the loop over the host sets exactly what the byte-by-byte form sets |
| Urls.Url.ScanFields | deps/http-parser/http_parser.c:2358-2424 | the loop over the URL does |
| Urls.Url.ReadPort | deps/http-parser/http_parser.c:2444-2463 | the loop over the port stops at the first value that is too large, and gives the decimal value otherwise |
| Urls.Url.ParseUrl | deps/http-parser/http_parser.c:2346-2466 | the whole parse is the function that the other statements are about |
| HostGrammar.HostsAreExact | deps/http-parser/http_parser.c:2176-2338 | a host part is accepted exactly if it is userinfo, a host name or an IPv6 address with perhaps a zone, and perhaps a port, as a grammar has them |
| AcceptedUrls.UrlsAreExact | deps/http-parser/http_parser.c:2346-2466 | a URL is accepted exactly if it is of the grammar: scheme, authority and tail; path; or for CONNECT an authority with a port of at most 65535 |
| AcceptedUrls.OddTargetIsAccepted | deps/http-parser/http_parser.c:2438-2441 | for CONNECT `@h:80?` is accepted |
| UrlRoundTrip.AuthorityRun | deps/http-parser/http_parser.c:2176-2338 | userinfo, host or IPv6 address with zone, and port are found where they were printed |
| UrlRoundTrip.AbsoluteUrlIsRecovered | deps/http-parser/http_parser.c:2346-2466 | printing the parts of an absolute URL and parsing gives exactly those present, unless a fragment stands directly behind the host, which is refused |
| UrlRoundTrip.FragmentBehindHostIsRefused | deps/http-parser/http_parser.c:490-636 | `http://h#f` is refused |
| UrlRoundTrip.PathIsRecovered | deps/http-parser/http_parser.c:2346-2466 | the same for targets that begin with a path |
| UrlRoundTrip.ConnectTargetIsRecovered | deps/http-parser/http_parser.c:2438-2441 | a CONNECT target is recovered exactly when it has a port |

## Left out

- HttpParser.Parser.Execute: buffers are shorter than 2^31 bytes; after a failure only the short count and the error are stated, not which callbacks were made before it.
- HttpFeed.Feed: promises nothing about bytes behind an upgrade, which the caller has to take elsewhere.
- FormData.RequestBody.ParseMultipartData: after an error the form is not described; a value on which `substr` throws counts as an error.
- FormDataRoundTrip.PrintAndRead: blanks before a content type are skipped by the parser and so not recovered.
- Requests.Request.SsOnHeaderField: does not read the query parameters off the URL, a split at fixed bytes.
- Requests.Request.SsOnMessageComplete: does not read urlencoded bodies, and describes the form for the first message of a request object.
- Requests.Request.ParseRequest: describes the request while there is one message and nothing behind it, because later messages share its vectors.
- Requests.ReceiveRequest: states one message with nothing behind it, because pipelined messages share one request object.
- RequestRoundTrip.ReceivePrinted: the client gives the length first and sends no Transfer-Encoding, Upgrade or CONNECT.
- HttpServer.HttpContext.SendResponse: the socket is a function from a buffer to the count taken; access logging and timing are not modelled.
- ThreadPools.EveryRunJoins: that a scheduler lets every thread go on, and that tasks end, lies outside the model.
- ThreadPools.JoiningEnds: shows one schedule with a bound of its own; EveryRunJoins is about all of them.
- HttpConnection.ConnectionIsExact: is about the value of one line; the theorems on folded lines cover a Connection value that goes on over a further line only where it holds no comma.
- Urls.Url.ParseUrl: buffers over 65535 bytes, whose offsets do not fit 16 bits, are outside the model.
- Which error code a failure leaves is modelled and agrees between the two forms of the parser; what is proved about texts is only whether they fail.
- HTTP_BOTH, lenient headers, non-strict mode and `http_parser_pause` are not modelled.
- The two callbacks whose answers matter are functions of the request line and of the merged callbacks so far; other callbacks return 0, as ehttp's do.
- Query parameters of URLs and of urlencoded bodies, unescaping, JSON, routing, logging and configuration.
- The explanations that FindPairing and the pre-check write to their listener.
- Sockets, epoll and the hand-over of a connection between threads; `recv` gives nonempty pieces of at most 4096 bytes.
- Restarting a pool, failing pthread calls, a pool of size 0, and tasks still queued when the pool is destroyed.
- Characters above 127 have no case; `tolower` is that of the C locale.
