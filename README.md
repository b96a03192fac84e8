# PE percentile lookup: stock-code normalisation and the lookup tool

This project models the logic of a small lookup service for Chinese A-share stocks. The service exposes one tool, `get_pe_percentile`, which answers with a stock's three-year price/earnings percentile. The model covers the tool's two pieces of logic, both in `server.py`:

- `normalize_stock_code` (module `StockCode`, `stock_code.dfy`). It accepts the exchange-suffix spelling `600739.SH` and the exchange-prefix spelling `sh600739`, in any letter case. It rewrites both to the canonical lower-case prefix key `sh600739` and rejects everything else with `None`. The patterns are matched with `re.match`, whose `$` also matches just before one final newline. The model keeps that behaviour: a prefix spelling followed by `\n` comes back lower-cased with the newline still attached, while a suffix spelling followed by `\n` is rebuilt from its groups and comes out clean.
- The decision tree of `get_pe_percentile` (module `PeTool`, `pe_tool.dfy`). A code that does not normalise gets the format-error reply. Otherwise the `stocks` table is queried on `stock_code` equal to the normalised key. What happens next depends on the result:
  - no rows: the not-found reply;
  - a first row whose `pe_percentile_3y` is null or missing: the value-absent reply;
  - a number in that column: the percentile reply;
  - any exception: the query-failed reply carrying the exception text.

  All replies except the query-failed one embed the caller's raw input. The store is an input: the function receives `query: Request -> QueryResult`, and a `Request` records the table, the selected column, the key column and the key.

`StockCode` also defines an independent description of the accepted inputs: a `Code` (an exchange and six digits) together with its suffix and prefix spellings. The lemmas link `Normalize` to that description in both directions.

The model follows the code in these details:
- the input is not trimmed;
- the success message embeds the caller's spelling, not the canonical code, and no display name;
- the failure message carries the exception text;
- the tool asks the store only for `pe_percentile_3y`.

One more thing the code does is also modelled. Formatting a textual percentile with `.4f` raises a `ValueError` inside the `try` block, and that error becomes a query-failed reply.

## Model

| member | source | states |
|---|---|---|
| `StockCode.Normalize` | server.py:48-59 | Every accepted result is `sh`/`sz` plus six digits, followed by at most the one newline that `$` admits. When the input has no final newline, the result is exactly an 8-character canonical code. The function is total. |
| `StockCode.Lower` | server.py:53-57 | `str.lower()` on ASCII: the same length, with every character lower-cased and nothing else changed. |
| `StockCode.SuffixSpellingNormalizes` | server.py:51-53 | Six digits, a dot and `SH`/`SZ` in any letter case, with or without one final newline, normalise to the lower-case marker followed by those same digits. |
| `StockCode.PrefixSpellingNormalizes` | server.py:56-57 | `sh`/`sz` in any case followed by six digits normalises to the input lower-cased. That is the canonical key, with the final newline kept when there is one. |
| `StockCode.NormalizeAcceptsOnlySpellings` | server.py:48-59 | Every accepted input is a suffix or prefix spelling of some valid code. Any other input yields `None`. |
| `StockCode.SpellingsAgree` | server.py:51-57 | Both spellings of one code, each marker in any case, normalise to the same canonical key. |
| `StockCode.NormalizeIdempotent` | server.py:49-57 | Normalising a result again returns that same result. This includes results that carry a newline. |
| `StockCode.NormalizeIgnoresCase` | server.py:51-57 | Two inputs that differ only in ASCII letter case normalise identically. |
| `StockCode.NormalizeNeverEmpty` | server.py:70 | No input normalises to the empty string. So the truthiness test of the caller rejects exactly the `None` results. |
| `StockCode.UsageGuideSh600739` | server.py:122-127 | `600739.SH` and `sh600739` both normalise to `sh600739`. |
| `StockCode.UsageGuideSz301011` | server.py:122-129 | `301011.SZ` and `sz301011` both normalise to `sz301011`. |
| `StockCode.SuffixExample000603` | server.py:50-53 | `000603.SZ` and `000603.sz` both normalise to `sz000603`. |
| `StockCode.PrefixAndRejectExamples` | server.py:55-59 | `SH600739` normalises to `sh600739`. `abc123` is rejected. |
| `StockCode.FinalNewlineQuirk` | server.py:51-57 | `sh600739\n` normalises to itself, newline included. `600739.SH\n` normalises to `sh600739`. Two final newlines are rejected. |
| `PeTool.Respond` | server.py:73-90 | Gives the not-found reply exactly when there are no rows. Gives the value-absent reply exactly when the first row's percentile is null or missing. Gives the percentile reply, with that row's value, exactly when the value is a number. A raised exception becomes the failure reply with its text. A textual percentile becomes the failure reply with the text of the `ValueError` that `.4f` raises on a `str`. Every reply except the failure reply names the raw input. It never gives the format error. |
| `PeTool.GetPePercentile` | server.py:62-90 | Gives the format error, naming the raw input, exactly when normalisation fails. Otherwise the reply is the one for the store's answer to the request for the normalised key. |
| `PeTool.FormatErrorWithoutLookup` | server.py:70-71 | A rejected code gets the same format-error reply whatever the store holds, so no lookup is made. |
| `PeTool.OnlyNormalizedKeyConsulted` | server.py:70-77 | Two stores that answer the normalised key's request alike produce the same reply. |
| `PeTool.SpellingsConsultSameRow` | server.py:70-77 | The suffix and prefix spellings of one code both query the canonical key. |
| `PeTool.FirstRowOnly` | server.py:82-86 | Rows after the first never change the reply. |
| `PeTool.AbsentValueIsNotMissingRow` | server.py:79-84 | A first row with a null or missing percentile gets the value-absent reply. No rows gets the not-found reply. The two messages differ. |
| `PeTool.MessagesTellKindsApart` | server.py:71-90 | Replies of different kinds about the same input never have the same message text. |
| `PeTool.Message` | server.py:71-90 | The five reply texts. The format-error, not-found, value-absent and percentile messages each contain the raw input verbatim at a fixed offset. The failure message is a fixed 6-character prefix followed by the exception text. `MessagesTellKindsApart` proves that the kinds cannot be confused. |
| `PeTool.RequestFor` | server.py:74-77 | The query reads table `stocks`, selects `pe_percentile_3y` and filters on `stock_code` equal to the given code. |
| `PeTool.PeValue` | server.py:82 | `row.get('pe_percentile_3y')`: a missing column reads as null, and a present column gives that column's cell. So a non-null result is always the row's own cell in that column. |
| `PeTool.RecommendedSpellingsAccepted` | server.py:71 | The two spellings the format-error message recommends are accepted and denote the same key, `sz000603`. |
| `PeTool.LookupExamples` | server.py:62-86 | Suppose the store has `0.1234` for `sh600739` and no row for `sz301011`. Then `600739.SH` gets the percentile reply, `sz301011` gets the not-found reply and `abc123` gets the format error. |

## Left out

- The MCP/SSE session bridge, the route registration and the handshake (server.py:96-137). These are asynchronous transport wiring over library code that is not part of this model.
- Environment loading, credential checks, the construction of the Supabase client and `sys.exit` (server.py:23-42): process start-up and I/O.
- The health check (server.py:92-94), the uvicorn launch (server.py:139-140) and the usage-guide prompt text (server.py:116-130). The guide's examples appear only as lemmas.
- The Supabase query chain (server.py:74-77) is a network call. Only its request (table, selected column, key column, key) and its result are modelled, and the result is an input to the model.
- `PeTool.Message`: the `.4f` formatting of the percentile (server.py:86) is floating-point output. It is the parameter `fixed4`, and the model does not say what digits it produces.
- Logging (server.py:17-20, 68, 89) is a side effect with no bearing on the replies.
- `StockCode.Normalize`: characters are ASCII only. Python's `\d` also matches non-ASCII decimal digits, and `re.IGNORECASE` lets `ſ` (U+017F) match `s`. The model treats both as non-matching and so rejects such inputs, which the source would accept.
- `PeTool.Cell`: a JSON cell is null, a number or a string. Booleans, arrays and objects in the percentile column are not modelled.
