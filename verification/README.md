# A verified model of the chatbot backend's core logic

This project models, in Dafny, the parts of the retrieval-augmented chatbot
backend that are decision logic and not glue to outside services. It
proves the properties that logic promises.

- **Grounded-context assembly** (`Backend/data_retrieval_from_RAG.py`).
  The vector search asks for ten hits (a smaller collection returns fewer)
  and the cross-encoder keeps at most
  five of them. Each kept chunk is emitted, best first, as its text, a
  `[Source: …]` citation line and a blank line. When the metadata has no
  `source`, the citation falls back to `unknown`.
- **The answering orchestrator** (`Backend/llama_service.py`).
  - The greeting classifier compares the stripped, lower-cased message with
    eight fixed phrases.
  - A greeting goes to the model as it is. Any other message triggers one
    retrieval and goes out as a system instruction plus a Context/Question
    prompt.
  - The reply is buffered by concatenating the `message.content` of every
    reply line that has one.
- **The OTP store** (`Backend/OTP_verification.py`). It maps an email to a
  pending code and its expiry instant, with `set`, `verify` and `clear`.
  `verify` has four outcomes, each with a fixed effect on the store.
- **The endpoints** (`Backend/main.py`), over tables held as values:
  - registration with unique emails;
  - title update with stripping;
  - conversation delete, which cascades to the conversation's messages;
  - feedback upsert and fetch;
  - plain-text export of a conversation;
  - OTP request, which draws a six-digit code;
  - OTP verification, which turns the store's answer into an HTTP result.
- **The request bodies** (`Backend/schemas.py`). `FeedbackRequest` requires
  each of its five ratings to lie in 1..5. `UserInfo` and `TitleUpdate` are
  plain records with no further constraint.

Modules, one per file:

| module | file | contents |
|---|---|---|
| `Wrappers` | `wrappers.dfy` | `Option`, `Result` |
| `Text` | `text.dfy` | the Python string operations the core relies on: `strip`, `lower`, `"".join`, `sep.join`, `str(n)` |
| `Retrieval` | `retrieval.dfy` | context assembly |
| `Llama` | `llama.dfy` | classifier, request building, reply buffering |
| `Otp` | `otp.dfy` | the OTP store |
| `Schemas` | `schemas.dfy` | request bodies and feedback validation |
| `Endpoints` | `endpoints.dfy` | the endpoint logic over the tables |

Modelling choices:

- **Time.** Time is an integer count of microseconds, the resolution of
  Python's `datetime`. `timedelta(minutes=m)` is `m * 60_000_000`. The
  current time is a parameter wherever the source calls `datetime.now()`.
- **Strings.** Strings are sequences of characters. `str.isspace` covers
  the ASCII whitespace characters: 9 to 13, 28 to 31 and space.
  `str.lower` maps only `A`..`Z`.
- **Tables.** `users`, `conversations` and `feedbacks` are maps keyed by
  their primary key, so the key is not repeated inside the row. `messages`
  is a sequence in insertion order.
- **Results and errors.** An endpoint that changes state returns the new
  tables. An endpoint that raises `HTTPException` returns the status and
  detail as an error, and its tables are unchanged.
- **Outside services.** The vector search, the cross-encoder, retrieval as
  seen from the orchestrator, and the `strftime` rendering of a timestamp
  are function-typed parameters. The completion service's reply is the
  sequence of its decoded lines, with `None` for an empty line.
  `random.randint` is a nondeterministic choice in its inclusive range.
- **The message argument.** `get_llama_response` is annotated as taking a
  `str` but reads `.message` from its argument. Its only caller passes a
  `Message` row. The model takes the message's text.

## Model

| member | source | states |
|---|---|---|
| Retrieval.ReRank | Backend/data_retrieval_from_RAG.py:30-40 | The result is the blocks of the ranked chunks, each `documents[idx] + "\n[Source: " + src + "]\n\n"`, concatenated in rank order. An empty rank list gives the empty string. |
| Retrieval.Select | Backend/data_retrieval_from_RAG.py:35-37 | Chunk `i` of the selection is the document at rank `i`, paired with that document's own metadata source. |
| Retrieval.SourceOf | Backend/data_retrieval_from_RAG.py:37 | Definition: the chunk metadata's `source` entry, or `"unknown"` when the entry is absent. |
| Retrieval.Block | Backend/data_retrieval_from_RAG.py:38 | Definition: the chunk text, a newline, `[Source: <source>]`, then two newlines. |
| Retrieval.SourceFallback | Backend/data_retrieval_from_RAG.py:37 | The citation is the metadata's `source` when present, else the non-empty literal `unknown`, so no chunk is emitted without a citation. |
| Retrieval.BlockInPlace | Backend/data_retrieval_from_RAG.py:35-38 | Every chunk's block appears in the context as one piece, preceded by the blocks of all higher-ranked chunks and followed by those of all lower-ranked ones. |
| Retrieval.BlockAt | Backend/data_retrieval_from_RAG.py:35-38 | The context, cut at a chunk's offset, holds exactly that chunk's text and citation. |
| Retrieval.RankOrderPreserved | Backend/data_retrieval_from_RAG.py:35-38 | A higher-ranked chunk's block ends before a lower-ranked chunk's block starts. |
| Retrieval.RenderAppend | Backend/data_retrieval_from_RAG.py:38 | Assembling two chunk lists one after the other gives the two contexts concatenated. |
| Retrieval.RenderSplit | Backend/data_retrieval_from_RAG.py:38 | The context of a chunk list is the context of its first `k` chunks followed by that of the rest, at any cut `k`. |
| Retrieval.RenderSize | Backend/data_retrieval_from_RAG.py:38 | The context length is the sum over chunks of text length, source length and the 13 characters of citation markup. |
| Retrieval.ContextBounded | Backend/data_retrieval_from_RAG.py:34-38 | With at most `top_k = 5` chunks, the context is at most `5 * (maxText + maxSource + 13)` characters, whatever the corpus size. |
| Retrieval.SizeBound | Backend/data_retrieval_from_RAG.py:35-38 | Each chunk adds at most `maxText + maxSource + 13` characters to the context. |
| Retrieval.SelectedAreRetrieved | Backend/data_retrieval_from_RAG.py:34-38 | Every emitted chunk text is one of the retrieved documents. At most 5 chunks are emitted, and never more than were retrieved. |
| Retrieval.DistinctBounded | Backend/data_retrieval_from_RAG.py:34 | A list of distinct corpus ids below `n` has at most `n` entries. |
| Retrieval.RetrieveRelevantChunks | Backend/data_retrieval_from_RAG.py:22-46 | The query asks for 10 hits. The same query reranks those same documents with their own metadata. The context holds at most 5 chunks (5 < 10), each a retrieved document. |
| Llama.ClassifyMessage | Backend/llama_service.py:26-33 | Definition: a greeting exactly when the message, stripped and lower-cased, equals one of the eight greeting phrases; otherwise no label. |
| Llama.ClassifyIff | Backend/llama_service.py:26-33 | A message is a greeting exactly when it is whitespace, then one of the eight phrases in any letter case, then whitespace. Every other message gets no label. |
| Llama.GreetingIsStrip | Backend/llama_service.py:27-33 | Whitespace around a phrase that lower-cases to a greeting phrase still classifies as a greeting. |
| Llama.KeywordsTight | Backend/llama_service.py:29 | Every greeting phrase is non-empty and has no surrounding whitespace. |
| Llama.ClassifyIgnoresPadding | Backend/llama_service.py:27 | Whitespace added around any message never changes its classification. |
| Llama.ClassifyIgnoresCase | Backend/llama_service.py:27 | Lower-casing any message first never changes its classification. |
| Llama.ClassifyExampleHello | Backend/llama_service.py:27-33 | `"Hello"` is a greeting. |
| Llama.ClassifyExampleMixedCase | Backend/llama_service.py:27-33 | `"HeLLo"` is a greeting. |
| Llama.ClassifyExamplePadded | Backend/llama_service.py:27-33 | `"  HeLLo  "` is a greeting. |
| Llama.ClassifyExampleLonger | Backend/llama_service.py:27-32 | `"hello there"` is not a greeting: matching is equality, not containment. |
| Llama.ClassifyExampleQuestion | Backend/llama_service.py:27-32 | `"Hello, how do I apply?"` is not a greeting. |
| Llama.NotGreetingByLength | Backend/llama_service.py:29-33 | A message whose stripped length matches no phrase length (2, 3, 5, 9, 12, 14) is not a greeting. |
| Llama.SystemPromptHasFallback | Backend/llama_service.py:7-22 | The system instruction contains the fallback sentence verbatim, at a known position. |
| Llama.Prompt | Backend/llama_service.py:62-68 | Definition: the retrieval-path user prompt, a `Context:` header, the context, a `Question:` header, the question, and the trailing indentation. |
| Llama.PromptFields | Backend/llama_service.py:62-68 | The retrieval-path prompt can be cut back into its parts: the context directly after the `Context:` header, then the `Question:` header, then the message before the trailer. |
| Llama.BuildRequest | Backend/llama_service.py:46-77 | Model `llama3.2`. A greeting sends one `user` message with the untrimmed text and no retrieval. Any other message makes exactly one retrieval, of the message itself, and sends `system` with the system prompt, then `user` with the Context/Question prompt. |
| Llama.SystemPromptOnlyWhenRetrieving | Backend/llama_service.py:46-77 | No retrieval happens exactly when the message is a greeting, and exactly when no `system` message is sent. |
| Llama.BufferResponse | Backend/llama_service.py:81-86 | The answer is the in-order concatenation of `message.content` over the non-empty lines that have both keys. |
| Llama.BufferedIsConcat | Backend/llama_service.py:81-86 | The line-by-line accumulation equals joining the contents of the lines that have one, in order. Other lines contribute nothing. |
| Llama.BufferedAppend | Backend/llama_service.py:82-86 | The answer to a reply received in two parts is the two parts' answers joined. |
| Llama.GetLlamaResponse | Backend/llama_service.py:39-88 | Model `llama3.2`. A greeting sends exactly one `user` message with the untrimmed text and no retrieval. Any other message makes one retrieval, of the message itself, and sends the system prompt, then the Context/Question prompt over the retrieved context. The returned text is the buffered reply. |
| Otp.SetOtp | Backend/OTP_verification.py:9-11 | The email now maps to the code and `now + m` minutes. Any older entry for it is replaced, and other emails' entries are unchanged. |
| Otp.Clear | Backend/OTP_verification.py:35-36 | Only that email's entry is removed; everything else stays. |
| Otp.VerifyOtp | Backend/OTP_verification.py:20-31 | The four outcomes, each as an if-and-only-if on the store and the time. Expiry is checked before the match. Not-found and invalid leave the store as it was; expired and verified remove the entry. |
| Otp.MessagesDistinct | Backend/OTP_verification.py:20-31 | The four answer strings are pairwise different, so comparing with "OTP verified" identifies the verified outcome. |
| Otp.VerifyIsLocal | Backend/OTP_verification.py:20-31 | Verification never changes another email's entry. |
| Otp.OneShot | Backend/OTP_verification.py:28-30 | After a successful verification, the next attempt finds no OTP. |
| Otp.RetryAfterInvalid | Backend/OTP_verification.py:31 | After a wrong guess, the right code is still accepted while unexpired. |
| Otp.ExpiryIsStrict | Backend/OTP_verification.py:9-25 | With the default expiry, a fresh OTP is accepted exactly two minutes later and reported expired one microsecond after that. |
| Otp.SetOverwrites | Backend/OTP_verification.py:11 | Setting twice keeps only the second code. |
| Otp.ClearIdempotent | Backend/OTP_verification.py:35-36 | Clearing twice is clearing once, and clearing an absent email changes nothing. |
| Schemas.ValidateFeedback | Backend/schemas.py:21-28 | A body is accepted exactly when all five ratings are in 1..5. A rejection lists exactly the fields that are out of range. |
| Schemas.OutOfRange | Backend/schemas.py:23-27 | A field is reported exactly when it is one of those checked and its rating is outside 1..5. |
| Schemas.ValidIffEveryField | Backend/schemas.py:23-27 | Validity is the conjunction of the per-field bound. |
| Schemas.BoundsInclusive | Backend/schemas.py:23-27 | A body whose ratings are all 1 or 5 is accepted. A body with 0 or 6 in any rated field is rejected. |
| Schemas.CommentsOptional | Backend/schemas.py:28 | A body without comments has `None`, and comments never affect validation. |
| Endpoints.RegisterUser | Backend/main.py:36-50 | 400 "User already exists" exactly when the email is taken. Otherwise the new row holds the given fields, and every other row and table is unchanged. |
| Endpoints.RegisterAddsOneRow | Backend/main.py:42-49 | A successful registration adds exactly one user row. |
| Endpoints.RegisterTwiceFails | Backend/main.py:38-40 | A second registration with the same email is refused, whatever its other fields. |
| Endpoints.RegisterThenCredentials | Backend/main.py:42-49 | A registered user passes the credentials check of `request_otp` with the password they registered with. |
| Endpoints.UpdateConversationTitle | Backend/main.py:84-92 | 404 "Conversation not found" exactly for an unknown id. Otherwise only that conversation's title changes, to the stripped new title. |
| Endpoints.UpdateTitleIdempotent | Backend/main.py:90 | The stored title has no surrounding whitespace, and re-submitting the stored title leaves the tables unchanged. |
| Endpoints.UpdateTitleIgnoresPadding | Backend/main.py:90 | A new title and its stripped form store the same thing. |
| Endpoints.MessagesNotIn | Backend/database.py:45 | The remaining messages are exactly those of other conversations, with their multiplicities. |
| Endpoints.DeleteConversation | Backend/main.py:160-168 | 404 exactly for an unknown id. Otherwise the conversation is gone, and through the cascade so is every one of its messages. Other conversations, their messages, users and feedback are untouched. |
| Endpoints.DeleteTwiceFails | Backend/main.py:162-164 | Deleting the same conversation again gives 404. |
| Endpoints.SubmitFeedback | Backend/main.py:266-293 | Upsert keyed by user id: afterwards exactly one row exists for the user, holding the submitted values. Other users' rows are unchanged. A table of valid rows stays valid. |
| Endpoints.GetFeedback | Backend/main.py:300-313 | 404 "Feedback not found" exactly when the user has no row. Otherwise the stored fields come back under the requested id. |
| Endpoints.SubmitThenGet | Backend/main.py:266-313 | Fetching after submitting returns exactly the submitted body. |
| Endpoints.SubmitIdempotent | Backend/main.py:268-290 | Submitting twice equals submitting once, and a later submission by the same user replaces the earlier one. |
| Endpoints.MessagesIn | Backend/main.py:239-241 | The selected rows are exactly the conversation's messages, with their multiplicities. |
| Endpoints.InsertByTime | Backend/main.py:242 | Inserting into a time-ordered list keeps it ordered and adds exactly the new message. |
| Endpoints.SortByTime | Backend/main.py:242 | The result is ordered by timestamp and is a permutation of the input. |
| Endpoints.ConversationMessages | Backend/main.py:239-244 | The exported rows are a permutation of the conversation's messages, in timestamp order. |
| Endpoints.PadRight | Backend/main.py:255 | `{s:4}` keeps the string and pads it with spaces to width 4. |
| Endpoints.RoleLabel | Backend/main.py:254-255 | The label is `User` exactly when the sender is `user`, and `Bot ` for every other sender. It is always 4 characters. |
| Endpoints.ExportLine | Backend/main.py:253-255 | Definition: `[<stamp>] <role padded to 4>: <message>` followed by a newline. |
| Endpoints.HeaderAndLines | Backend/main.py:249-255 | The header, then line `i + 1` for message `i`. |
| Endpoints.ExportLines | Backend/main.py:249-257 | Header, one line per message in order, footer: message count plus 2 lines. |
| Endpoints.ExportConversation | Backend/main.py:237-258 | 404 "No messages found" exactly when no message belongs to the conversation. |
| Endpoints.JoinHeaderAndLines | Backend/main.py:258 | Joining the header and message lines with newlines is the header followed by each line behind its own newline. |
| Endpoints.ExportText | Backend/main.py:237-258 | For a conversation with at least one message, the export succeeds and its text is the header, each message's `[ts] ROLE: text` line in timestamp order, and the footer, separated by newlines. |
| Endpoints.ExportAfterDelete | Backend/main.py:160-168 | After a conversation is deleted, its export is 404: the cascade removed all its messages. |
| Endpoints.ValidCredentials | Backend/main.py:202-204 | Definition: a user row with that email exists and its stored password equals the one given. |
| Endpoints.RequestOtp | Backend/main.py:197-211 | 401 "Invalid email or password" exactly for bad credentials. Otherwise the code is six decimal digits with no leading zero, its value is in 100000..999999, and it is stored for the email with the default two-minute expiry. |
| Endpoints.VerifyOtp | Backend/main.py:218-231 | 401 carrying the store's own message, with the store's own resulting state, unless it is "OTP verified". A verified code clears the pending entry and returns the user's email when the user exists, and 500 "Internal Server Error" when the user row is missing. |
| Endpoints.VerifyNeverFailsInternally | Backend/main.py:223-231 | While every pending code belongs to a registered user, verification succeeds exactly when the store accepts the code. |
| Endpoints.PendingAreRegisteredPreserved | Backend/main.py:36-231 | Registration, OTP requests and verification keep every pending code tied to a registered user. |
| Endpoints.LoginRoundTrip | Backend/main.py:197-231 | A code requested with valid credentials and entered within two minutes yields the user's id. Entering it again gives 401 "OTP not found". |
| Text.StripUnique | Backend/llama_service.py:27 | `strip` removes exactly the leading and trailing whitespace: any cut into blank / tight / blank is the one it finds. |
| Text.StripIdempotent | Backend/main.py:90 | Stripping twice is stripping once. |
| Text.StripPadded | Backend/llama_service.py:27 | Added surrounding whitespace does not change what a string strips to. |
| Text.StripLower | Backend/llama_service.py:27 | Stripping and lower-casing commute. |
| Text.DecimalRoundTrip | Backend/main.py:206 | Reading back the decimal rendering of `n` gives `n`. |
| Text.DecimalLength | Backend/main.py:206 | A number in `[10^k, 10^(k+1))` renders as `k + 1` digits with no leading zero. |

## Left out

- The vector store and the cross-encoder: the embedding model, cosine distance, the persistent collection, and how the cross-encoder scores and orders documents. They are library calls working on floating-point scores. Their output enters as parameters. The model assumes only that the rank list is at most 5 distinct valid ids. Tie-breaking and the empty-index case are not modelled.
- The HTTP call to the completion service and the JSON decoding of its reply lines are not modelled: they are network I/O and a parser. The reply enters as the sequence of decoded lines. Printing the answer is left out too.
- FastAPI routing, CORS, dependency injection, and the SQLAlchemy engine and sessions are not modelled. Tables are values, and a commit is the returned new tables.
- The `datetime.now(UTC)` column defaults evaluated at import time are not modelled, and neither are the conversations' `created_at` / `updated_at` and the feedback timestamp. Message timestamps are plain integers in the rows.
- The database's order for messages with equal timestamps is unspecified. The model's sort keeps table order for ties.
- `strftime` rendering is an opaque function from timestamp to string.
- `Backend/email_utils.py` is not part of this model. `request_otp` returns the code that would be mailed.
- `start_conversation`, `get_user_conversations`, `get_messages`, `send_message_to_conversation` and `search_conversations` are not modelled. They insert or read rows without a decision of their own: `send_message_to_conversation` stores the user's message and the answer of `get_llama_response` (modelled as `Llama.GetLlamaResponse`), and `search_conversations` relies on SQL `ilike` matching.
- Unicode whitespace and Unicode case mapping are not modelled. `strip` and `lower` act on ASCII only.
- Pydantic's type coercion and the 422 response for a rejected body are not modelled. A body has its declared types, and `submit_feedback` receives only bodies that pass `ValidateFeedback`.
- `verify_otp` and `request_otp` read `email`, `password` and `otp` from a raw dict. Missing keys and non-string values (a `KeyError` or a comparison with a number) are not modelled.
- Endpoints.RequestOtp: the code is drawn by a nondeterministic choice, not by Python's pseudo-random generator, so no distribution is stated. The mailer is assumed to succeed. In the source the code is stored before the mail is sent, so an SMTP error or a missing `EMAIL_PORT` setting gives a 500 with the code still pending. The model reports success in that case and does not model the failure.
- Concurrency is not modelled: every endpoint and every OTP store operation is atomic, and requests run one after another. The source shares one class-level OTP dictionary across worker threads, and its get, compare and clear are not atomic.
- Otp.OneShot and Endpoints.LoginRoundTrip hold for sequential attempts only. Two concurrent verifications with the right code can both succeed in the source.
- Endpoints.RegisterUser: two concurrent registrations of the same email can end in a primary-key error (500) instead of the 400 the model gives.
