# hev-socks5-tunnel: a verified model

This project models, in Dafny, the parts of hev-socks5-tunnel that keep state or rewrite data in ways that are easy to get
wrong, and proves what they promise.

- **Red-black tree and its clients.** `RedBlackShape`, `RedBlackLink`, `RedBlackInsert`, `RedBlackErase`, `RedBlackRepair` and
  `RedBlackHeight` hold the theory; `RedBlackTree` is the tree object with its rebalancing loops. Nodes live in an explicit
  store from addresses to node records, so every pointer assignment of the original is an update of that store. `TreeSearch`
  is the descent that the mapped-DNS cache and the authenticator share.
- **Mapped DNS.** `LinkedList`, `MappedDns` and `LruCache`: one cache seen as tree, list and array, proved to be a bounded
  least-recently-used map. `DnsReply` parses questions in place and writes the answers.
- **Authenticator.** `Authenticator`: a tree that stands for a map from names to users.
- **Stop protocol.** `StopProtocol`: the four-bit word shared by any number of stop callers, init, run, the event task and
  fini, as a machine of atomic steps.
- **Zero-copy return path.** `RingBuffer`: the three-stage ring and the session steps that use it.
- **YAML.** `YamlReader` decodes the input, `YamlScanner` turns lexemes into tokens, `YamlParser` turns tokens into events
  whose language is defined in `YamlEvents`, `YamlLoader` builds documents; `YamlTour` and `YamlDumper` go the other way.
  `YamlChars`, `YamlQuoted`, `YamlPlain` and `YamlEmitter` are the plain and quoted scalar styles and their scanners.
- **SOCKS5.** `Socks5Udp` is the UDP-in-TCP framing and the UDP header, `Socks5Handshake` client and server against each other.

Each imperative part is a class or a method with loops whose contract refers to a function on values; the theorems are about
those functions. `dafny verify dfyconfig.toml` checks the whole project.

Where a promise does not hold for all inputs, the exact condition is proved. The addresses of a DNS reply all look up to the
names asked for exactly when the cache has a place for each different name. A run ends at once exactly when STOP was set since
the run before it looked; so a stop that read SEND clear ends the run that follows exactly when its STOP comes before the test
of that run, or STOP was set already. The loader's assertions fail exactly when a caller goes on after an error or has taken
events of the document from the parser itself. Framing on TCP needs addresses of at most 252 bytes; a frame fits its buffer
exactly when its address does; a compression pointer needs an offset below 0x4000; the tag "!" does not survive a dump.

Two observations about the code have lemmas of their own. Scalars survive because they are always written at an indentation of
at least two: without indentation a folded line can begin with a document indicator (`YamlQuotedRoundTrip.IndentationNeeded`).
In a flow sequence a key that is missing after `?` lets the parser skip the next token whatever it is, the closing bracket
included (`YamlParser.Parser.ParseFlowEntryMappingKey`).

## Model

| member | source | states |
|---|---|---|
| RedBlackShape.RotateLeftShape | hev-socks5-tunnel/src/core/src/hev-rbtree.c:79-106 | A left rotation with its parent link, as every case of the rebalancing performs it, keeps all links consistent and the in-order sequence unchanged. |
| RedBlackShape.RotateRightShape | hev-socks5-tunnel/src/core/src/hev-rbtree.c:79-106 | The same for a right rotation. |
| RedBlackLink.LinkShape | hev-socks5-tunnel/src/core/src/hev-rbtree.h:45-53 | Linking a red node at an empty child slot gives the old in-order sequence with the node inserted at the place of that slot. |
| RedBlackLink.LinkColours | hev-socks5-tunnel/src/core/src/hev-rbtree.h:45-53 | After linking, every black height is right and at most the new node and its parent break the rule that a red node has black children. |
| RedBlackTree.Tree.Insert | hev-socks5-tunnel/src/core/src/hev-rbtree.c:194-333 | Linking at the empty slot that a search found and recolouring yields a valid red-black tree whose in-order sequence is the old one with one insertion; no other node enters or leaves. |
| RedBlackTree.Tree.InsertColour | hev-socks5-tunnel/src/core/src/hev-rbtree.c:194-333 | The recolouring loop ends with all colour and black-height rules restored, consistent links and the in-order sequence unchanged; it terminates because the violation moves to a subtree that spans more. |
| RedBlackTree.Tree.Flip | hev-socks5-tunnel/src/core/src/hev-rbtree.c:222-248 | With a red uncle the colour flip moves the only violation to the grandparent. |
| RedBlackTree.Tree.InsertRotateLeft | hev-socks5-tunnel/src/core/src/hev-rbtree.c:250-293 | The one or two rotations for a parent that is a left child end the rebalancing with all rules restored. |
| RedBlackTree.Tree.InsertRotateRight | hev-socks5-tunnel/src/core/src/hev-rbtree.c:307-331 | The mirror image for a parent that is a right child. |
| RedBlackTree.Tree.Erase | hev-socks5-tunnel/src/core/src/hev-rbtree.c:628-635 | Erasing any node removes exactly that node from the in-order sequence and from the node set and leaves a valid red-black tree. |
| RedBlackTree.Tree.Unlink | hev-socks5-tunnel/src/core/src/hev-rbtree.c:351-448 | The unlinking removes exactly that node from the in-order sequence with consistent links; either no rule is broken, or one empty child of the returned parent is one black node short and nothing else is wrong. |
| RedBlackTree.Tree.UnlinkSimple | hev-socks5-tunnel/src/core/src/hev-rbtree.c:359-383 | Both cases with at most one child. |
| RedBlackTree.Tree.UnlinkSuccessor | hev-socks5-tunnel/src/core/src/hev-rbtree.c:384-441 | The case with two children, where the in-order successor takes over place and colour, as child or as deeper descendant. |
| RedBlackTree.SpliceCorrect | hev-socks5-tunnel/src/core/src/hev-rbtree.c:384-441 | Moving the successor into the place of the erased node is exchanging the two and then dropping the erased one: order, links, colours and heights come out accordingly. |
| RedBlackTree.Tree.EraseColour | hev-socks5-tunnel/src/core/src/hev-rbtree.c:450-626 | From one subtree that is one black node short the loop restores every rule, keeps the in-order sequence and terminates. |
| RedBlackTree.Tree.RepairLeft | hev-socks5-tunnel/src/core/src/hev-rbtree.c:463-573 | One round for a short left subtree: the four sibling cases end in a valid tree, or the shortage moves up to a parent that spans strictly more. |
| RedBlackTree.Tree.RepairRight | hev-socks5-tunnel/src/core/src/hev-rbtree.c:574-624 | The mirror image. |
| RedBlackRepair.EraseCase1LeftCorrect | hev-socks5-tunnel/src/core/src/hev-rbtree.c:465-483 | Case 1: rotating a red sibling up keeps order, links and heights, with the shortage one level lower. |
| RedBlackRepair.Case2Correct | hev-socks5-tunnel/src/core/src/hev-rbtree.c:484-514 | Case 2: making the sibling red moves the shortage to the parent, or ends it if the parent was red. |
| RedBlackRepair.EraseCases3And4Left | hev-socks5-tunnel/src/core/src/hev-rbtree.c:515-572 | Cases 3 and 4 together end the repair with all rules restored. |
| RedBlackRepair.EraseCases3And4Right | hev-socks5-tunnel/src/core/src/hev-rbtree.c:603-623 | The mirror image. |
| RedBlackTree.Tree.First | hev-socks5-tunnel/src/core/src/hev-rbtree.c:168-179 | The first node of the in-order sequence, or null for an empty tree. |
| RedBlackTree.Tree.Last | hev-socks5-tunnel/src/core/src/hev-rbtree.c:181-192 | The last node of the in-order sequence. |
| RedBlackTree.Tree.Next | hev-socks5-tunnel/src/core/src/hev-rbtree.c:136-166 | The node after the given one in the in-order sequence, or null after the last. |
| RedBlackTree.Tree.Prev | hev-socks5-tunnel/src/core/src/hev-rbtree.c:107-134 | The node before the given one, or null before the first. |
| RedBlackHeight.InOrderIsElems | hev-socks5-tunnel/src/core/src/hev-rbtree.c:107-192 | Following child links alone visits exactly the sequence that all contracts speak of. |
| RedBlackHeight.SearchIsLogarithmic | hev-socks5-tunnel/src/core/src/hev-rbtree.c:194-333 | No descent from the root of a valid tree of n nodes visits more than 2 log2(n + 1) nodes. |
| TreeSearch.Descend | hev-socks5-tunnel/src/hev-mapped-dns.c:109-127 | The search loop of both clients: it finds the node with the key, or the empty slot where inserting keeps the strictly descending order, within 2 log2(n + 1) steps. |
| TreeSearch.InsertBetween | hev-socks5-tunnel/src/core/src/hev-socks5-authenticator.c:45-69 | Inserting at the slot where a search ended keeps the keys strictly descending. |
| TreeSearch.BetweenAbsent | hev-socks5-tunnel/src/core/src/hev-socks5-authenticator.c:104-131 | A search that ends at an empty slot shows that no node has the key. |
| ByteOrder.CompareIsOrder | hev-socks5-tunnel/src/core/src/hev-socks5-authenticator.c:52-56 | Both comparisons, by bytes and by length then bytes, are total orders whose zero is equality. |
| LinkedList.List.AddTail | hev-socks5-tunnel/src/misc/hev-list.c:14-25 | The list in both directions is the old one with the node at its end. |
| LinkedList.List.Del | hev-socks5-tunnel/src/misc/hev-list.c:27-39 | The list in both directions is the old one without the node. |
| MappedDns.New | hev-socks5-tunnel/src/hev-mapped-dns.c:44-63 | A cache is made exactly when it leaves at least one host address free, and it is empty; one without places is made too. |
| MappedDns.Dns.Find | hev-socks5-tunnel/src/hev-mapped-dns.c:102-154 | Tree, list and records stay views of the same distinctly named nodes, and the operation is the lookup-or-insert of a bounded least-recently-used map; a failed allocation of a new node changes nothing. |
| MappedDns.Dns.FindNew | hev-socks5-tunnel/src/hev-mapped-dns.c:130-139 | While there is room a new name gets the next free index. |
| MappedDns.Dns.FindEvicting | hev-socks5-tunnel/src/hev-mapped-dns.c:130-154 | When full the least recently used node leaves all three views and its index passes to the new name. |
| MappedDns.Dns.Lookup | hev-socks5-tunnel/src/hev-mapped-dns.c:261-279 | The name at the index of an address, which becomes the most recently used, or none; the network part plays no role. |
| MappedDns.ViewWell | hev-socks5-tunnel/src/hev-mapped-dns.c:102-154 | The three views describe at most max distinct names, each with one index and one place in the order of use. |
| MappedDns.EvictViews | hev-socks5-tunnel/src/hev-mapped-dns.c:140-151 | Replacing the least recently used node keeps the three views in agreement. |
| LruCache.FindKeeps | hev-socks5-tunnel/src/hev-mapped-dns.c:102-154 | A lookup-or-insert leaves a bounded map with distinct names in which the name has the returned index and is the most recently used. |
| LruCache.LookupKeeps | hev-socks5-tunnel/src/hev-mapped-dns.c:261-279 | A lookup by index leaves the map well formed. |
| LruCache.Survival | hev-socks5-tunnel/src/hev-mapped-dns.c:102-154 | Once a name was given an index, looking that index up still gives the name after every history that uses fewer than max other names. |
| MappedDns.AddressIndex | hev-socks5-tunnel/src/hev-mapped-dns.c:267-269 | The address made of the network and an index has that index as its host part. |
| DnsWire.NameRoundTrip | hev-socks5-tunnel/src/hev-mapped-dns.c:214-224 | Walking over a written name finds its end and turns the length bytes into dots. |
| DnsWire.WrittenName | hev-socks5-tunnel/src/hev-mapped-dns.c:214-231 | The string taken for a question is its labels joined by dots, for labels without zero bytes. |
| DnsWire.QuestionsRoundTrip | hev-socks5-tunnel/src/hev-mapped-dns.c:207-239 | Any list of written questions is met one by one; exactly those of type A and class IN are answered, each with its own offset and name. |
| DnsWire.ReplyReads | hev-socks5-tunnel/src/hev-mapped-dns.c:187-258 | A reply keeps the question count and question bytes and holds one 16-byte record per question for an address, in order, pointing to the name of its own question exactly when that starts below offset 0x4000. |
| DnsAnswers.AllSurvive | hev-socks5-tunnel/src/hev-mapped-dns.c:228-235 | When max is at least the number of different names asked for, every index given still stands for its name after the last question. |
| DnsAnswers.SurviveExactly | hev-socks5-tunnel/src/hev-mapped-dns.c:228-235 | Every index given in answer to a request still stands for its name after the last question if and only if the different names asked for are no more than the places of the cache, from every state of the cache. |
| DnsAnswers.TooManyQuestions | hev-socks5-tunnel/src/hev-mapped-dns.c:228-235 | With one place and two names the first answer is overtaken. |
| DnsHandler.ReadName | hev-socks5-tunnel/src/hev-mapped-dns.c:211-222 | The loop that rewrites the label lengths in place returns the end of the name, or fails where it runs out of the request. |
| DnsHandler.StringIsName | hev-socks5-tunnel/src/hev-mapped-dns.c:228-231 | The zero-terminated string behind the first rewritten length is the dotted name. |
| DnsHandler.ReadQuestions | hev-socks5-tunnel/src/hev-mapped-dns.c:207-239 | The loop over the questions performs exactly the finds for the address questions, in order, and stops at the first malformed one. |
| DnsHandler.Handle | hev-socks5-tunnel/src/hev-mapped-dns.c:178-259 | A request is refused exactly when it is too short, does not fit, has more than 32 questions, is malformed or leaves no room for the answers; otherwise the buffer holds the reply. The cache has looked for exactly the names met, also when the request is refused half way. |
| DnsHandler.RepliesLookUp | hev-socks5-tunnel/src/hev-mapped-dns.c:233-279 | Every address in a reply looks up to the name of its question if and only if the different names asked for are no more than the places of the cache. |
| Authenticator.Authenticator.Get | hev-socks5-tunnel/src/core/src/hev-socks5-authenticator.c:104-131 | The user that the plain map from names to users gives, or null. |
| Authenticator.Authenticator.Add | hev-socks5-tunnel/src/core/src/hev-socks5-authenticator.c:39-70 | A new name is added to the map; a name that is there already changes nothing and is reported. |
| Authenticator.Authenticator.Del | hev-socks5-tunnel/src/core/src/hev-socks5-authenticator.c:72-102 | The name leaves the map; an unknown name changes nothing and is reported. |
| Authenticator.Authenticator.Clear | hev-socks5-tunnel/src/core/src/hev-socks5-authenticator.c:133-145 | The map and the tree end empty. |
| StopProtocol.StepInv | hev-socks5-tunnel/src/hev-socks5-tunnel.c:282-769 | Every atomic step of stop callers, init, run, the event task and fini keeps the invariant. |
| StopProtocol.RunInv | hev-socks5-tunnel/src/hev-socks5-tunnel.c:282-769 | The invariant holds in every state of every interleaving of any number of callers. |
| StopProtocol.AtMostOneHolder | hev-socks5-tunnel/src/hev-socks5-tunnel.c:744-769 | At most one caller is between setting and clearing WAIT. |
| StopProtocol.WritesAreSafe | hev-socks5-tunnel/src/hev-socks5-tunnel.c:744-769 | A caller about to write finds the event sockets open, and at most three bytes are written in one lifetime. |
| StopProtocol.SentIsFresh | hev-socks5-tunnel/src/hev-socks5-tunnel.c:653-720 | From teardown until init publishes SEND again, SENT is clear and no caller can set it or write. |
| StopProtocol.StopIsDelivered | hev-socks5-tunnel/src/hev-socks5-tunnel.c:744-769 | A stop that saw SEND returns only with a byte of this lifetime pending or already read by the event task. |
| StopProtocol.StopCanBeLost | hev-socks5-tunnel/src/hev-socks5-tunnel.c:721-769 | A concrete interleaving in which a stop that read SEND clear sets STOP after run has tested it, so that the tunnel runs on. |
| StopProtocol.StopStays | hev-socks5-tunnel/src/hev-socks5-tunnel.c:721-769 | STOP stays set until a run tests it. |
| StopProtocol.StopComes | hev-socks5-tunnel/src/hev-socks5-tunnel.c:721-769 | Whenever STOP is set, some caller set it and no run has tested it since. |
| StopProtocol.RunStopsExactly | hev-socks5-tunnel/src/hev-socks5-tunnel.c:721-742 | In every interleaving a run ends at once if and only if some caller set STOP since the last test of an earlier run; otherwise it starts. |
| StopProtocol.StopReachesRun | hev-socks5-tunnel/src/hev-socks5-tunnel.c:721-769 | A caller that found SEND clear ends the first run after that look if and only if it sets STOP before that run tests it, or STOP was set already. |
| StopProtocol.NextRunStops | hev-socks5-tunnel/src/hev-socks5-tunnel.c:721-769 | A stop that found SEND clear is honoured by the first run that tests STOP after it was set. |
| RingBuffer.ArcSpansCover | hev-socks5-tunnel/src/misc/hev-ring-buffer.c:25-86 | The one or two spans handed out cover exactly the wanted places, in order, through the wrap. |
| RingBuffer.Ring.Reading | hev-socks5-tunnel/src/misc/hev-ring-buffer.c:25-45 | The spans of the bytes written and not yet handed out. |
| RingBuffer.Ring.Writing | hev-socks5-tunnel/src/misc/hev-ring-buffer.c:64-85 | The spans of the free places. |
| RingBuffer.Ring.ReadFinish | hev-socks5-tunnel/src/misc/hev-ring-buffer.c:47-52 | Handing out advances the read position; the bytes stay in use. |
| RingBuffer.Ring.ReadRelease | hev-socks5-tunnel/src/misc/hev-ring-buffer.c:54-62 | Releasing acknowledged bytes frees them, and an empty buffer starts again at zero. |
| RingBuffer.Ring.WriteFinish | hev-socks5-tunnel/src/misc/hev-ring-buffer.c:87-93 | Writing extends the part to be handed out. |
| ReturnPath.Session.Fill | hev-socks5-tunnel/src/hev-socks5-session-tcp.c:85-105 | Bytes read from the socket go into free places only: every byte not yet acknowledged keeps its value. |
| ReturnPath.Session.Hand | hev-socks5-tunnel/src/hev-socks5-session-tcp.c:107-131 | What is given to tcp_write, whose length has 16 bits, is exactly the bytes received, in order; places handed out before stay the same. |
| ReturnPath.Session.Acknowledge | hev-socks5-tunnel/src/hev-socks5-session-tcp.c:151-160 | An acknowledgement of at most what was given releases exactly the oldest bytes, also through the reset to zero. |
| ReturnPath.Session.UnacknowledgedUnchanged | hev-socks5-tunnel/src/hev-socks5-session-tcp.c:85-160 | In every reachable state each byte given and not acknowledged is still at the place that was handed out, with its value. |
| ReturnPath.Relay | hev-socks5-tunnel/src/hev-socks5-session-tcp.c:85-160 | In every interleaving of arrivals, hand-outs and acknowledgements, whoever reads at any later moment a place handed out at any earlier moment finds the byte it was handed out for, until that byte is acknowledged; what lwIP was given is a beginning of what the socket delivers. |
| ReturnPath.FillKeeps | hev-socks5-tunnel/src/misc/hev-ring-buffer.c:64-93 | Filling free places overwrites no byte that is still in use. |
| ReturnPath.HandKeeps | hev-socks5-tunnel/src/misc/hev-ring-buffer.c:25-52 | The bytes at the places handed out are the next received ones. |
| YamlEmitter.AnalyzeScalar | hev-socks5-tunnel/third-part/yaml/src/emitter.c:1500-1694 | All five flags, each as an equivalence: multi-line, plain in flow and in block context (one line, no space at the ends, no special character, no indicator where it would mean something), single-quoted, block styles; the empty value as the source has it. |
| YamlEmitter.SelectStyle | hev-socks5-tunnel/third-part/yaml/src/emitter.c:1197-1253 | An error exactly when neither a tag nor an implicit flag is given; single quotes, plain and block styles only where the flags of the analysis and the context allow them; double quotes in canonical output and for multi-line keys; plain without a tag only with the plain implicit flag. |
| YamlEmitter.Emitter.ChooseStyle | hev-socks5-tunnel/third-part/yaml/src/emitter.c:1037-1054 | Analysis and selection together: a plain or single-quoted style is chosen only for values that may have it. |
| YamlEmitter.Emitter.WriteIndent | hev-socks5-tunnel/third-part/yaml/src/emitter.c:1787-1805 | Either a line break and the indentation, or padding up to the indentation. |
| YamlEmitter.Emitter.WriteIndicator | hev-socks5-tunnel/third-part/yaml/src/emitter.c:1807-1830 | The indicator, after a space where one is needed, and the pen state after it. |
| YamlEmitter.Emitter.WriteDoubleQuoted | hev-socks5-tunnel/third-part/yaml/src/emitter.c:2050-2204 | The loop writes the double-quoted form that the round trip is proved for, folds and escapes included. |
| YamlEmitter.Emitter.WriteSingleQuoted | hev-socks5-tunnel/third-part/yaml/src/emitter.c:1984-2048 | The loop writes the single-quoted form that the round trip is proved for, folds and doubled breaks included. |
| YamlEmitter.Emitter.WritePlain | hev-socks5-tunnel/third-part/yaml/src/emitter.c:1918-1982 | The loop writes the plain form that the round trip is proved for, folds included, after a space unless the value is empty outside of flow collections. |
| YamlEmitter.Emitter.WriteMark | hev-socks5-tunnel/third-part/yaml/src/emitter.c:1849-1868 | The tag "!" that a scalar gets when only its plain form would imply its tag. |
| YamlEmitter.Emitter.WriteEscape | hev-socks5-tunnel/third-part/yaml/src/emitter.c:2072-2168 | The shortest escape letter, or two, four or eight hexadecimal digits. |
| YamlEmitter.Emitter.IncreaseIndent | hev-socks5-tunnel/third-part/yaml/src/emitter.c:402-417 | The old level is pushed; the new one is at least two inside a flow or quoted scalar. |
| YamlEmitter.Emitter.EmitScalar | hev-socks5-tunnel/third-part/yaml/src/emitter.c:1037-1054 | From every state of the emitter: an error exactly when neither a tag nor an implicit flag is given; otherwise, after the tag "!" where it is needed, a plain or quoted scalar is written so that scanning it gives back the value and stops at its end. A quoted one in any column and whatever follows (after single quotes, anything but a quote); a plain one is taken for a plain scalar and read back in every block that is indented less, wherever a plain scalar may end. |
| YamlEmitter.Emitter.constructor | hev-socks5-tunnel/third-part/yaml/src/emitter.c:494-545 | Indent 2 to 9, a default width where the wanted one is too small, a line break, level -1. |
| YamlQuotedRoundTrip.DoubleQuotedRoundTrip | hev-socks5-tunnel/third-part/yaml/src/emitter.c:2050-2204 | For every string of Unicode scalar values, every width and positive indent, every line-break style: scanning the double-quoted text gives the string back. |
| YamlQuotedRoundTrip.SingleQuotedRoundTrip | hev-socks5-tunnel/third-part/yaml/src/emitter.c:1984-2048 | The same for single-quoted text whenever the analysis allows that style, folded lines and runs of breaks included. |
| YamlQuotedRoundTrip.IndentationNeeded | hev-socks5-tunnel/third-part/yaml/src/scanner.c:3049-3067 | At indentation zero a value exists whose single-quoted form does not scan. |
| YamlPlainRoundTrip.PlainRoundTrip | hev-socks5-tunnel/third-part/yaml/src/emitter.c:1918-1982 | For every value that the analysis allows to be plain, every width, line break and indentation deeper than the block around it: the scanner takes the text for a plain scalar and reads exactly the value, before the end of the stream, the colon of a key or an indicator of a flow collection. |
| YamlPlainRoundTrip.PlainThenLine | hev-socks5-tunnel/third-part/yaml/src/scanner.c:3568-3571 | The same before a line that is not indented deeper than the block. |
| YamlPlainRoundTrip.TakenForPlain | hev-socks5-tunnel/third-part/yaml/src/scanner.c:893-1049 | No plain text that the emitter writes is taken for another token. |
| YamlScanPlain.ScanPlainScalar | hev-socks5-tunnel/third-part/yaml/src/scanner.c:3397-3598 | The nested loops that scan a plain scalar compute the scan that the round trip is proved about, its end and its error included. |
| YamlQuotedRoundTrip.EscapeRoundTrip | hev-socks5-tunnel/third-part/yaml/src/scanner.c:3115-3276 | Every escape sequence written is read back as its character, to its last digit. |
| YamlFlowScalar.ScanFlowScalar | hev-socks5-tunnel/third-part/yaml/src/scanner.c:3024-3391 | The nested scanning loops compute the scan that the round trips are proved about, errors included. |
| YamlTokensInvariant.FetchInv | hev-socks5-tunnel/third-part/yaml/src/scanner.c:860-1049 | Every fetch keeps: as many simple-key places as flow levels plus one, indentation levels strictly increasing from -1, opened minus ended block collections equal to their number, key numbers increasing with the flow level and below the token count; and it makes progress. |
| YamlTokensInvariant.EndInv | hev-socks5-tunnel/third-part/yaml/src/scanner.c:1329-1361 | At the end of the input every key left in an outer flow level has become stale, and outside flow collections every block collection has been ended. |
| YamlTokensInvariant.FoundKeyInv | hev-socks5-tunnel/third-part/yaml/src/scanner.c:1683-1724 | Inserting KEY and BLOCK-MAPPING-START before a simple key moves no other possible key. |
| YamlTokensInvariant.UnrollInv | hev-socks5-tunnel/third-part/yaml/src/scanner.c:1258-1285 | Ending levels keeps the balance of block collections, and the stack of levels never underflows. |
| YamlTokensInvariant.DropStale | hev-socks5-tunnel/third-part/yaml/src/scanner.c:1056-1090 | The check for stale keys made before a delivery leaves the outcome of the scan as it is, or reports an error that the scan has anyway. |
| YamlTokensInvariant.FetchKeeps | hev-socks5-tunnel/third-part/yaml/src/scanner.c:860-1049 | No fetch changes the tokens before the earliest possible key. |
| YamlTokensInvariant.AheadKeeps | hev-socks5-tunnel/third-part/yaml/src/scanner.c:800-854 | The tokens before every possible key are final, also when the scan runs into an error later. |
| YamlScanner.Scanner.StaleSimpleKeys | hev-socks5-tunnel/third-part/yaml/src/scanner.c:1056-1090 | Keys on an earlier line or more than 1024 characters back are dropped; a required one is an error. |
| YamlScanner.Scanner.SaveSimpleKey | hev-socks5-tunnel/third-part/yaml/src/scanner.c:1097-1128 | A possible key is recorded for the current flow level with the number of the next token. |
| YamlScanner.Scanner.RemoveSimpleKey | hev-socks5-tunnel/third-part/yaml/src/scanner.c:1134-1155 | The key of the current flow level is dropped; a required one is an error. |
| YamlScanner.Scanner.RollIndent | hev-socks5-tunnel/third-part/yaml/src/scanner.c:1205-1249 | In block context a deeper column opens a level and puts its start token at the end or before the given token, which is still in the queue. |
| YamlScanner.Scanner.UnrollIndent | hev-socks5-tunnel/third-part/yaml/src/scanner.c:1258-1285 | Each deeper level ends with a BLOCK-END token; the stack never underflows. |
| YamlScanner.Scanner.FetchColon | hev-socks5-tunnel/third-part/yaml/src/scanner.c:1683-1759 | A value completes a simple key retroactively, or a complex one where that is permitted. |
| YamlScanner.Scanner.FetchNextToken | hev-socks5-tunnel/third-part/yaml/src/scanner.c:860-1049 | One fetch acts on delivered and queued tokens together, independently of how many were delivered. |
| YamlScanner.Scanner.FetchMoreTokens | hev-socks5-tunnel/third-part/yaml/src/scanner.c:800-854 | Fetching stops exactly when no possible key stands before the head of the queue, and the outcome of the whole scan is unchanged. |
| YamlScanner.Scanner.Next | hev-socks5-tunnel/third-part/yaml/src/scanner.c:742-776 | One more token is delivered, or nothing after the end or an error; an error means that scanning everything first fails too. |
| YamlScanner.Scanner.DeliveredIsFinal | hev-socks5-tunnel/third-part/yaml/src/scanner.c:742-854 | What has been delivered is always a beginning of the tokens fetched by scanning everything first, up to its error if it has one; at the end of the stream it is all of them. |
| YamlScanner.Scanner.AtRest | hev-socks5-tunnel/third-part/yaml/src/scanner.c:1097-1285 | Each possible key has a number between the tokens delivered and the tokens delivered plus queued, increasing by flow level; levels increase from -1; starts minus ends of block collections are the number of levels. |
| YamlScanner.ScanAll | hev-socks5-tunnel/third-part/yaml/src/scanner.c:742-854 | Delivering token by token succeeds exactly when scanning everything first does, with the same tokens; otherwise what was delivered begins the tokens fetched up to the error. |
| YamlEvents.AcceptedAreStreams | hev-socks5-tunnel/third-part/yaml/src/parser.c:225-304 | The event automaton accepts exactly STREAM-START (DOCUMENT-START node DOCUMENT-END)* STREAM-END with balanced collections and mappings made of pairs. |
| YamlEvents.UnstuckArePrefixes | hev-socks5-tunnel/third-part/yaml/src/parser.c:225-304 | What the automaton has not refused is exactly a beginning of such a stream. |
| YamlParserStates.Popped | hev-socks5-tunnel/third-part/yaml/src/parser.c:529-717 | Returning to the state on top of the stack after a node is what the automaton does, for every continuation state. |
| YamlParserStates.ConservedAll | hev-socks5-tunnel/third-part/yaml/src/parser.c:225-304 | When the end of the stream has been repeated nothing that the tokens mention is missing from the events. |
| YamlParser.Parser.ParseStreamStart | hev-socks5-tunnel/third-part/yaml/src/parser.c:312-331 | STREAM-START, or an error. The event is one that the automaton accepts, nothing the tokens mention is lost, stacks stay in step and the budget shrinks. |
| YamlParser.Parser.ParseDocumentStart | hev-socks5-tunnel/third-part/yaml/src/parser.c:341-431 | Extra document ends are skipped; an implicit or explicit document begins with its directives, or the stream ends. The event is one that the automaton accepts, nothing the tokens mention is lost, stacks stay in step and the budget shrinks. |
| YamlParser.Parser.ParseDocumentContent | hev-socks5-tunnel/third-part/yaml/src/parser.c:439-459 | A root node, empty where the document ends at once. The event is one that the automaton accepts, nothing the tokens mention is lost, stacks stay in step and the budget shrinks. |
| YamlParser.Parser.ParseDocumentEnd | hev-socks5-tunnel/third-part/yaml/src/parser.c:469-497 | The document ends and all its directives are forgotten. The event is one that the automaton accepts, nothing the tokens mention is lost, stacks stay in step and the budget shrinks. |
| YamlParser.Parser.ParseNode | hev-socks5-tunnel/third-part/yaml/src/parser.c:528-717 | An alias, a scalar, a collection or an empty node with properties takes its place in the event stream, with exactly the properties that were read. The event is one that the automaton accepts, nothing the tokens mention is lost, stacks stay in step and the budget shrinks. |
| YamlParser.Parser.ParseBlockSequenceEntry | hev-socks5-tunnel/third-part/yaml/src/parser.c:725-775 | An entry or the end of a block sequence; the mark stack never underflows. The event is one that the automaton accepts, nothing the tokens mention is lost, stacks stay in step and the budget shrinks. |
| YamlParser.Parser.ParseIndentlessSequenceEntry | hev-socks5-tunnel/third-part/yaml/src/parser.c:783-819 | An entry or the end of a sequence without a token of its own. The event is one that the automaton accepts, nothing the tokens mention is lost, stacks stay in step and the budget shrinks. |
| YamlParser.Parser.ParseBlockMappingKey | hev-socks5-tunnel/third-part/yaml/src/parser.c:833-884 | A key or the end of a block mapping. The event is one that the automaton accepts, nothing the tokens mention is lost, stacks stay in step and the budget shrinks. |
| YamlParser.Parser.ParseBlockMappingValue | hev-socks5-tunnel/third-part/yaml/src/parser.c:898-932 | A value, empty where none is written. The event is one that the automaton accepts, nothing the tokens mention is lost, stacks stay in step and the budget shrinks. |
| YamlParser.Parser.ParseFlowSequenceEntry | hev-socks5-tunnel/third-part/yaml/src/parser.c:948-1001 | An entry, a single-pair mapping or the end of a flow sequence. The event is one that the automaton accepts, nothing the tokens mention is lost, stacks stay in step and the budget shrinks. |
| YamlParser.Parser.ParseFlowEntryMappingKey | hev-socks5-tunnel/third-part/yaml/src/parser.c:1009-1031 | The key of a single-pair mapping; where it is missing the next token is skipped, the closing bracket included. The event is one that the automaton accepts, nothing the tokens mention is lost, stacks stay in step and the budget shrinks. |
| YamlParser.Parser.ParseFlowEntryMappingValue | hev-socks5-tunnel/third-part/yaml/src/parser.c:1039-1062 | Its value. The event is one that the automaton accepts, nothing the tokens mention is lost, stacks stay in step and the budget shrinks. |
| YamlParser.Parser.ParseFlowEntryMappingEnd | hev-socks5-tunnel/third-part/yaml/src/parser.c:1070-1083 | Its end. The event is one that the automaton accepts, nothing the tokens mention is lost, stacks stay in step and the budget shrinks. |
| YamlParser.Parser.ParseFlowMappingKey | hev-socks5-tunnel/third-part/yaml/src/parser.c:1099-1161 | A key or the end of a flow mapping. The event is one that the automaton accepts, nothing the tokens mention is lost, stacks stay in step and the budget shrinks. |
| YamlParser.Parser.ParseFlowMappingValue | hev-socks5-tunnel/third-part/yaml/src/parser.c:1169-1199 | A value, empty where none is written. The event is one that the automaton accepts, nothing the tokens mention is lost, stacks stay in step and the budget shrinks. |
| YamlParser.Parser.ResolveTag | hev-socks5-tunnel/third-part/yaml/src/parser.c:594-629 | A tag is its suffix, or the prefix of the first directive with its handle followed by the suffix; an undefined handle is an error. |
| YamlParser.Parser.AppendDirective | hev-socks5-tunnel/third-part/yaml/src/parser.c:1341-1374 | Handles stay distinct: a second directive for a handle is refused, or ignored for the defaults. |
| YamlParser.Parser.ProcessDirectives | hev-socks5-tunnel/third-part/yaml/src/parser.c:1228-1335 | Version and tag directives are read and the two default handles are always defined: the directives are exactly those read and the defaults that they leave undefined. |
| YamlParser.Parser.Parse | hev-socks5-tunnel/third-part/yaml/src/parser.c:169-189 | Nothing after the end or an error; otherwise an event that the automaton accepts, with less of the budget left, or an error. |
| YamlParser.Parser.ParseKeeping | hev-socks5-tunnel/third-part/yaml/src/parser.c:169-304 | In addition everything the tokens mention is in the events or still to be read, tags in full. |
| YamlParser.ParseAll | hev-socks5-tunnel/third-part/yaml/src/parser.c:169-304 | On every finite token stream parsing ends after at most four events per token; the events are a beginning of the grammar, the whole of it exactly when there was no error, and then repeat every anchor, alias and non-empty value in order, and every tag in full as the directives of its document resolve it; before an error they repeat a beginning of these. |
| YamlComposer.LoadFits | hev-socks5-tunnel/third-part/yaml/src/loader.c:216-544 | No event that the automaton accepts makes an assertion of the loader fail, and composing it keeps open collections, indices and half-filled pairs in step. |
| YamlComposer.DoneFits | hev-socks5-tunnel/third-part/yaml/src/loader.c:216-257 | When the root is complete every index is that of a node and no pair lacks its value. |
| YamlComposer.PairsAreComplete | hev-socks5-tunnel/third-part/yaml/src/loader.c:298-344 | Every loaded pair has both a key and a value. |
| YamlLoader.Loader.RegisterAnchor | hev-socks5-tunnel/third-part/yaml/src/loader.c:263-292 | An anchor is registered once; a duplicate is an error. |
| YamlLoader.Loader.LoadNodeAdd | hev-socks5-tunnel/third-part/yaml/src/loader.c:298-344 | A node becomes the next item, key or value of the innermost open collection. |
| YamlLoader.Loader.LoadAlias | hev-socks5-tunnel/third-part/yaml/src/loader.c:350-368 | An alias adds the node that has the anchor; an undefined one is an error. |
| YamlLoader.Loader.LoadOne | hev-socks5-tunnel/third-part/yaml/src/loader.c:370-544 | Each event is composed as specified. |
| YamlLoader.Loader.LoadNodes | hev-socks5-tunnel/third-part/yaml/src/loader.c:216-257 | Loading a document ends, without a failed assertion, in the composition of exactly its events, complete, or in an error. |
| YamlLoader.Loader.Load | hev-socks5-tunnel/third-part/yaml/src/loader.c:86-132 | A loaded document is the composition of exactly the events that the parser produced for it, complete, and the parser stands between documents; an error is reported exactly when the parser has one afterwards; an assertion fails exactly when the caller goes on after an error or calls in the middle of a document and the parser has a next event (which yaml.h:1442 forbids). |
| YamlTour.WalkReachesExactly | hev-socks5-tunnel/third-part/yaml/src/dumper.c:206-238 | The walk visits each node of the least closed set around the root once, the root first, and no other node. |
| YamlTour.DocumentIsClosed | hev-socks5-tunnel/third-part/yaml/src/loader.c:298-344 | A loaded document satisfies what the dumper needs. |
| YamlDump.AnchorNameInjective | hev-socks5-tunnel/third-part/yaml/src/dumper.c:240-257 | Different anchor ids have different names. |
| YamlDump.AliasesGrow | hev-socks5-tunnel/third-part/yaml/src/loader.c:263-292 | The anchors registered are those of the nodes visited, each once. |
| YamlDumpLoads.AliasLoads | hev-socks5-tunnel/third-part/yaml/src/dumper.c:264-309 | Every second visit has an anchor, and its alias finds the node of the first visit. |
| YamlDumpLoads.NodeLoads | hev-socks5-tunnel/third-part/yaml/src/dumper.c:263-393 | Loading the events of a node adds the images of exactly the nodes first visited in it. |
| YamlDumpLoads.DumpThenLoad | hev-socks5-tunnel/third-part/yaml/src/dumper.c:111-393 | Loading what is dumped gives a graph isomorphic to the part of the document reachable from the root, sharing and cycles included. |
| YamlDumpLoads.TagsSurvive | hev-socks5-tunnel/third-part/yaml/src/loader.c:383-388 | A tag survives exactly when it is not "!". |
| YamlDump.DocumentAccepted | hev-socks5-tunnel/third-part/yaml/src/dumper.c:111-160 | For every document and all anchor ids the events dumped take the automaton from between documents to between documents. |
| YamlDumper.Dumper.AnchorNode | hev-socks5-tunnel/third-part/yaml/src/dumper.c:206-238 | The first walk counts visits and gives a fresh id to exactly the nodes met again; it terminates on cyclic documents. |
| YamlDumper.Dumper.DumpNode | hev-socks5-tunnel/third-part/yaml/src/dumper.c:263-294 | The second walk writes each node once and aliases for later visits, which always have an anchor. |
| YamlDumper.Dumper.DumpItems | hev-socks5-tunnel/third-part/yaml/src/dumper.c:338-362 | The items in order. |
| YamlDumper.Dumper.DumpPairs | hev-socks5-tunnel/third-part/yaml/src/dumper.c:368-393 | Keys and values alternately, in order. |
| YamlDumper.Dumper.Dump | hev-socks5-tunnel/third-part/yaml/src/dumper.c:111-160 | The events written are one document of the event grammar, and what stands between its start and its end loads back as the reachable part; an empty document closes the stream. |
| YamlUnicode.DecodeExtends | hev-socks5-tunnel/third-part/yaml/src/reader.c:202-400 | A decision about a character made on some bytes stands when more arrive. |
| YamlUnicode.DecodesEncoded | hev-socks5-tunnel/third-part/yaml/src/reader.c:202-400 | For every text of allowed characters decoding its UTF-8, UTF-16LE or UTF-16BE form gives the text. |
| YamlUnicode.Utf8PassesThrough | hev-socks5-tunnel/third-part/yaml/src/reader.c:202-453 | UTF-8 input is put into the buffer byte by byte unchanged. |
| YamlUnicode.BomDecided | hev-socks5-tunnel/third-part/yaml/src/reader.c:50-87 | Three bytes, or all there are, decide about the byte order mark. |
| YamlReader.Expansion | hev-socks5-tunnel/third-part/yaml/src/yaml_private.h:45-53 | A character takes at most half as much again in the working buffer as in the raw buffer. |
| YamlReader.Reader.DetermineEncoding | hev-socks5-tunnel/third-part/yaml/src/reader.c:50-87 | The encoding and the bytes skipped are those of the whole input, however it is split. |
| YamlReader.Reader.UpdateRawBuffer | hev-socks5-tunnel/third-part/yaml/src/reader.c:93-132 | No byte is lost or moved out of order, the raw buffer never exceeds its size, and there is progress unless the input has ended. |
| YamlReader.Reader.DecodeNext | hev-socks5-tunnel/third-part/yaml/src/reader.c:202-400 | The character at the raw pointer, or what is wrong with it. |
| YamlReader.Reader.UpdateBuffer | hev-socks5-tunnel/third-part/yaml/src/reader.c:141-469 | As many characters as asked for can be read, or everything to one NUL at the end; neither buffer exceeds its size; an error means that the input cannot be decoded or is too long. Requests go up to 6144 characters: the source demands that they be significantly less than the buffer size (reader.c:138). |
| YamlReader.Reader.Skip | hev-socks5-tunnel/third-part/yaml/src/scanner.c:495-499 | Stepping over a character by the width of its first byte. |
| YamlReader.ReadAll | hev-socks5-tunnel/third-part/yaml/src/reader.c:141-469 | However the read handler splits an input, the characters read up to the first NUL are those of the whole input, and an error is reported exactly when it cannot be decoded. |
| Socks5Address.SockaddrRoundTrip | hev-socks5-tunnel/src/core/src/hev-socks5-misc.c:161-227 | A socket address written as a SOCKS5 address and read back is the same. |
| Socks5Address.AddressRoundTrip | hev-socks5-tunnel/src/core/src/hev-socks5-misc.c:161-227 | An IPv4 or IPv6 address read and written again is the same, except exactly for IPv6 addresses that stand for IPv4 ones. |
| Socks5Frames.FrameRoundTrip | hev-socks5-tunnel/src/core/src/hev-socks5-udp.c:56-100 | A framed datagram that fits the buffer is read back, whatever follows, exactly when its address has at most 252 bytes. |
| Socks5Frames.AcceptedFits | hev-socks5-tunnel/src/core/src/hev-socks5-udp.c:191-203 | A frame that passes the length tests is the frame of the message read, and it fits the receive buffer exactly when its address does, as every address does in 252 bytes. |
| Socks5Frames.DatagramRoundTrip | hev-socks5-tunnel/src/core/src/hev-socks5-udp.c:102-144 | A datagram with a UDP header is parsed back to its address and data. |
| Socks5Udp.Socket.SendMessages | hev-socks5-tunnel/src/core/src/hev-socks5-udp.c:56-100 | All frames are written in order, or nothing if an address is not valid. |
| Socks5Udp.Socket.RecvOne | hev-socks5-tunnel/src/core/src/hev-socks5-udp.c:160-232 | For every buffer size: a frame whose head arrives in pieces is read whole, with the first two address bytes taken from the head; otherwise nothing is consumed or the stream is not a frame. |
| Socks5Udp.Socket.RecvMessages | hev-socks5-tunnel/src/core/src/hev-socks5-udp.c:160-232 | A batch yields the next datagrams in order and leaves the stream where the next batch goes on. |
| Socks5Udp.Transfer | hev-socks5-tunnel/src/core/src/hev-socks5-udp.c:56-232 | Any list of datagrams with addresses up to 252 bytes and 1500 bytes in all arrives unchanged and in order, in batches of any size and however the heads arrive. |
| Socks5Messages.LoginRoundTrip | hev-socks5-tunnel/src/core/src/hev-socks5-server.c:124-194 | Credentials are read to their last byte, and refused exactly when a length is zero. |
| Socks5Messages.RequestRoundTrip | hev-socks5-tunnel/src/core/src/hev-socks5-server.c:244-283 | A request is read to its last byte with its command and address. |
| Socks5Messages.ResponseRoundTrip | hev-socks5-tunnel/src/core/src/hev-socks5-client.c:214-268 | A granting response is read to its last byte; any other is refused. |
| Socks5Messages.MethodsRoundTrip | hev-socks5-tunnel/src/core/src/hev-socks5-server.c:57-101 | The single offered method is found exactly when it is the wanted one, and nothing more is read. |
| Socks5Client.Client.WriteLogin | hev-socks5-tunnel/src/core/src/hev-socks5-client.c:55-91 | The credentials, with lengths taken modulo 256, or nothing. |
| Socks5Client.Client.WriteRequest | hev-socks5-tunnel/src/core/src/hev-socks5-client.c:93-159 | Version, command and address; nothing for an unknown address type. |
| Socks5Client.Client.ReadReply | hev-socks5-tunnel/src/core/src/hev-socks5-client.c:214-268 | The bound address of a granted request, reading no byte too many. |
| Socks5Server.Server.Greet | hev-socks5-tunnel/src/core/src/hev-socks5-server.c:57-122 | The wanted method is chosen exactly when it is offered; otherwise 255 is answered. |
| Socks5Server.Server.CheckUser | hev-socks5-tunnel/src/core/src/hev-socks5-server.c:124-215 | The user is accepted exactly when name and password are known. |
| Socks5Server.Server.Serve | hev-socks5-tunnel/src/core/src/hev-socks5-server.c:244-350 | Command and address are decoded, and the reply tells what became of the request; a request that is read and refused is answered with its code and the zero address, and nothing is answered when the client has gone. |
| Socks5Exchange.Standard | hev-socks5-tunnel/src/core/src/hev-socks5-client.c:325-362 | In every case: what the client sends, whether each side succeeds, and for a client that is let in the exact user, command and address at the server; after a success both directions have been read to the last byte. |
| Socks5Exchange.Pipelined | hev-socks5-tunnel/src/core/src/hev-socks5-client.c:364-401 | The same outcome; the bytes sent are those of the standard order whenever the server lets the client in. |

## Left out

- Colour and parent packed into one word: two fields of a node record; nodes are addresses in an explicit store rather than heap objects.
- `hev_rbtree_replace`: no caller in the modelled code.
- Allocation: failure is modelled only in `MappedDns.Dns.Find`; elsewhere it succeeds. Reference counts, logging, timeouts and the task scheduler are left out.
- MappedDns.Dns.Find: the mask is modelled as a power-of-two number of hosts with a network that is a multiple of it, so that `net | idx` is `net + idx`; a cache without places has no index to give, so `Find` asks for at least one.
- DnsHandler.Handle: the cache has at least one place; allocation succeeds; the byte swap of the question count in the request header, which nothing reads again, is not modelled; lengths are not negative.
- lwIP: an environment that acknowledges at most what was given to it. The forward direction of the TCP session is left out.
- The stop protocol takes the atomic operations as sequentially consistent steps.
- YamlReader.Reader.UpdateBuffer: the read handler does not fail; buffers are the bytes between their pointers together with the pointer offset; at most 6144 characters are asked for at once, because larger requests could overflow the buffer, as the source's own comment warns.
- YamlScanner.Scanner.FetchNextToken: the division of characters into lexemes is an arbitrary function of position, flow level, indentation and the permission for a simple key; only quoted and plain scalars are scanned from characters, in `YamlFlowScalar` and `YamlScanPlain`.
- YamlFlowScalar.ScanFlowScalar: works on code points; the UTF-8 form of the buffers is the business of `YamlUnicode`.
- YamlEmitter.Emitter.EmitScalar: literal and folded scalars are chosen but not written; the anchor and a tag given with the event are not written either.
- Collections and documents of the emitter, and its UTF-16 output.
- Marks, scalar and collection styles, encodings and directives inside events; the limits on stack sizes that guard against overflow of `int`.
- YamlDumpLoads.DumpThenLoad: the events go to the loader directly, not through the emitter and the parser.
- Socks5Udp.Socket.RecvOne: streams that end inside a frame are only reported as broken.
- Socks5Server.Server.Serve: resolving, connecting and binding are answers of the surroundings.
- Servers that choose a method the client did not offer.
- Configuration files, tunnel devices, JNI glue, loggers and process helpers: plumbing with easy bounds only.
