# hey-minion, modelled in Dafny

hey-minion keeps one authenticated websocket open to the HEY mail service's
ActionCable endpoint (`wss://app.hey.com/cable`). It subscribes to the page-update channels
listed on the home page and watches for frames whose HTML fragment carries the
`clearances_button` element, meaning that a sender is waiting to be screened.
On such a frame it re-reads the set of pending senders. If that set holds a sender
not seen before, it pushes a Pushover notification naming one of them. When the
connection fails it reconnects forever, with a doubling delay.

This project models that core and proves what it promises:

- `supervisor.dfy` (module `Supervisor`) models the reconnect loop of
  `listen_on_hey_websocket_forever`. The socket is replaced by a finite trace of
  what each connection attempt ran into: the connect failed, a subscribe send
  failed, or frames were received until the connection ended. The loop's
  observable behaviour is an event log: connections opened, subscribe frames
  sent, frames handed to `process`, and sleeps. `Listen` is the loop itself,
  proved equal to the specification `Supervise`. The lemmas prove the backoff,
  the zero delay after a connect, subscribing before handling, resubscribing
  on reconnect, and ping filtering.
- `screening.dfy` (module `Screening`) models `process`. A `Screener` object holds
  the process-wide `unscreened` set. `Process` takes whether the frame has a
  `message` key, whether its fragment has the marker, and the fresh snapshot.
  The BeautifulSoup query and the HTTP fetch become these inputs. The notice
  names an arbitrary new sender, chosen with `:|`.
- `hey.dfy` (module `Hey`) models the session helpers of `src/hey.py`: `files`,
  the Cookie header of `get_cookie`, and the two scraping loops. The loops take
  the texts BeautifulSoup would have extracted, element by element.
- `prompt.dfy` (module `Prompt`) models `confirm`'s answer parsing and retry loop
  over a sequence of typed lines, and the email completion.
- `text.dfy` (module `Text`) holds the Python string operations these rely on:
  `join`, `strip` with `str.isspace` whitespace, and `str(n)` for a natural
  number. It also holds the first-occurrence search and digit reading that
  the proofs use to parse a Cookie header or a title back.
- `wrappers.dfy` (module `Wrappers`) holds `Option` and `Result`.

Three points of the loop's behaviour, as the code has them:

- Only `ConnectionClosed` and `socket.gaierror` are caught and retried
  (src/main.py:153). Any other exception leaves the loop, including one raised
  while connecting, an undecodable frame and a frame that is not a JSON object.
  The model records this as `Stopped`.
- A connection that the server closes normally ends `async for` without an
  exception. The loop then reconnects at once, with no sleep and no doubling
  (`End.ClosedCleanly`). Only an abnormal close goes through the sleep.
- `retry_delay` is set to 0 as soon as a connection opens, before any subscribe
  frame is sent. Doubling 0 gives 0, so once any connection has opened, every
  later retry sleeps 0 ms (`QuietAfterConnect`).

## Model

| member | source | states |
|---|---|---|
| Supervisor.Listen | src/main.py:125-156 | the loop's event log and final status over a trace of attempts equal `Supervise`: connect, subscribe per channel, hand non-ping frames to `process`, sleep and double on a caught failure, stop on any other exception |
| Supervisor.Turn | src/main.py:135-156 | one turn of the loop (connect, reset the delay to 0, subscribe, read, `except` clause) produces exactly the events and next status of `Step` |
| Supervisor.ReadFrames | src/main.py:149-152 | the receive loop hands on each decoded non-ping frame and stops at the first undecodable or non-object frame, as `Read` |
| Supervisor.Handshake | src/main.py:126-130 | the handshake headers are exactly User-Agent, Origin and Cookie; the Cookie value is `get_cookie()`'s header, and for header-safe cookies it parses back to the session's cookies |
| Supervisor.Retried | src/main.py:153 | the `except` clause catches exactly ConnectionClosed and gaierror |
| Supervisor.IsPing | src/main.py:151 | a frame is a ping iff its `type` is present and equals "ping"; a frame without `type` is handed on |
| Supervisor.ProcessInputs | src/main.py:106-108 | what `process` asks of a handled frame: it has a `message` iff its message is present, and the marker is found only inside a present message |
| Supervisor.BackoffBeforeFirstConnect | src/main.py:131-156 | k caught connect failures in a row from the start sleep 100, 200, ..., 100·2^(k-1) ms, and the delay is then 100·2^k ms |
| Supervisor.QuietAfterConnect | src/main.py:138-156 | after the first opened connection every later sleep is 0 ms, and the delay stays 0 |
| Supervisor.SubscribeBeforeHandle | src/main.py:136-152 | every frame handed to `process` follows an opened connection that first sent one subscribe frame per channel, in list order, with no other connection opened in between |
| Supervisor.Resubscribe | src/main.py:132-145 | when no subscribe send fails, the subscribe frames of a whole run are the one channel list repeated once per connection: none lost, duplicated or reordered |
| Supervisor.PingsNeverHandled | src/main.py:151-152 | no frame whose `type` is "ping" is ever handed to `process` |
| Supervisor.ReadAllDecoded | src/main.py:149-152 | with every frame decodable, the frames handed to `process` are exactly the non-ping ones, in order, and reading raises nothing |
| Supervisor.ReadStopsAtFirstBad | src/main.py:149-152 | the first undecodable or non-object frame ends reading with the matching error; only the non-ping frames before it were handled |
| Supervisor.ReadHandlesNoPing | src/main.py:151-152 | reading yields only `Handled` events, and none for a ping |
| Supervisor.StoppedIsFinal | src/main.py:134-156 | once an uncaught exception has left the loop, later attempts change nothing |
| Supervisor.ConnectedStep | src/main.py:136-156 | a turn that connected opens, sends subscribe frames in channel order, then only handles frames and sleeps 0 ms, and leaves the delay at 0 |
| Supervisor.FailedStep | src/main.py:153-156 | a failed connect caught as ConnectionClosed or gaierror sleeps exactly once, for the current delay, and the delay doubles; any other failure sleeps not at all and stops the loop |
| Supervisor.Step | src/main.py:135-156 | specification of one turn: a turn opens a connection iff connecting did not fail, and a turn that opened one leaves the delay at 0 when the loop goes on |
| Supervisor.Supervise | src/main.py:131-156 | specification of the loop over a trace of attempts: it starts at 100 ms and stays put once stopped; its content is fixed by the lemmas of this table |
| Supervisor.Read | src/main.py:149-152 | specification of the receive loop, folded from the left; `ReadAllDecoded` equates it with a front-to-back filter |
| Supervisor.Recover | src/main.py:153-156 | specification of the `except` clause; `FailedStep` states its effect |
| Supervisor.SubscribeFrames | src/main.py:139-145 | specification of the subscribe block; `CountsOfSubscribeFrames` reads the channel list back from it |
| Supervisor.CountsOfSubscribeFrames | src/main.py:139-145 | the subscribe block names exactly the channel list, in order, and opens no connection |
| Supervisor.StepCounts | src/main.py:136-145 | a completed turn sends the whole channel list once and counts one connection; a failed connect sends none |
| Screening.Screener.Process | src/main.py:105-123 | a frame without `message` or without the marker changes nothing and notifies nothing; otherwise the set becomes the snapshot, a notice is sent iff snapshot − previous is non-empty, its body is in that difference and its title counts the whole snapshot |
| Screening.Screener.constructor | src/main.py:162 | the set starts as the start-up snapshot |
| Screening.ProcessTwice | src/main.py:110-115 | two detected events with the same snapshot, run on the object: the second notifies nothing and the set equals the snapshot |
| Screening.Processed | src/main.py:105-119 | the relation one call of `process` establishes between the set before, the set after and the notice: unchanged and silent without message or marker, otherwise the set becomes the snapshot and a notice, naming a new sender and counting the snapshot, is sent iff there is a new sender |
| Screening.DedupIdempotent | src/main.py:110-115 | for any previous set, the second of two detected events with the same snapshot sends no notice |
| Screening.NotificationAnnounces | src/main.py:110-119 | a notice names a sender that is now pending and was not before, and its title announces the snapshot's size, at least 1 |
| Screening.BurstOfNewSenders | src/main.py:110-119 | from {a} to {a, b, c}: exactly one notice, titled "3 senders to be screened", naming b or c |
| Screening.Title | src/main.py:118 | the title starts with the count's decimal digits followed by a non-digit, so the count can be read back |
| Screening.TitleCountRoundTrip | src/main.py:118 | the number at the head of a title is the count it was built from |
| Screening.TitleWording | src/main.py:118 | the word is "sender" for n = 1 and "senders" for every other n, 0 included |
| Screening.TitleExamples | src/main.py:118 | "1 sender to be screened" and "3 senders to be screened" |
| Hey.Files | src/hey.py:4-9 | the result has exactly the keyword names as keys, the same size, and no filename in any field |
| Hey.FilesRoundTrip | src/hey.py:9 | the field values read back are exactly the keyword arguments |
| Hey.CookieHeader | src/hey.py:58-61 | an empty jar gives "", one cookie gives `name=value` with no separator, and a non-empty jar gives a non-empty header |
| Hey.CookieEntry | src/hey.py:60 | an entry starts with the cookie's name, and when the name holds no '=' the first '=' comes right after it |
| Hey.CookieHeaderRoundTrip | src/hey.py:58-61 | for names without '=' or ';' and values without ';', splitting the header at "; " and each entry at its first '=' gives back the cookies, in order |
| Hey.CookieHeaderLength | src/hey.py:60-61 | the header's length is that of the n entries plus n − 1 two-character separators |
| Hey.SenderKey | src/hey.py:32 | a key starts with the first span's text and a space |
| Hey.SenderKeyShape | src/hey.py:32 | the part of a key after the name and space has no whitespace at either end; it is a contiguous piece of the second span's text with only whitespace dropped around it, and is already stripped |
| Hey.KeyOf | src/hey.py:31-32 | the key of one heading, from its first two spans |
| Hey.Senders | src/hey.py:29-33 | specification of what `get_unscreened_senders` returns: the set of the headings' keys, pinned down by `SendersMembership`, `SendersBound` and `SendersCollapse` |
| Hey.UnscreenedSenders | src/hey.py:23-33 | the scraping loop returns the set of all heading keys, or the IndexError at the first heading with fewer than two spans |
| Hey.SendersMembership | src/hey.py:29-33 | a key is in the result iff some heading produces it |
| Hey.SendersBound | src/hey.py:29-33 | the result has at most as many keys as there are headings |
| Hey.SendersCollapse | src/hey.py:29-33 | two headings with the same key make the result strictly smaller than the heading count |
| Hey.Elements | src/hey.py:29-33 | specification of the set built by successive `add`s; the three lemmas below fix its content and size |
| Hey.ElementsMembership | src/hey.py:29-33 | the set built by successive `add`s holds exactly the elements added |
| Hey.ElementsBound | src/hey.py:29-33 | that set is no larger than the number of `add`s |
| Hey.ElementsCollapse | src/hey.py:29-33 | a repeated element makes that set strictly smaller |
| Hey.Channels | src/hey.py:35-43 | one channel per meta tag, in document order, duplicates kept; or the KeyError at the first tag lacking the attribute |
| Prompt.Answer | src/main.py:23-25 | an empty line or one starting with y/Y means yes; one starting with n/N means no; anything else asks again |
| Prompt.LowerAscii | src/main.py:23 | a character lower-cases to 'y' iff it is 'y' or 'Y', and to 'n' iff it is 'n' or 'N' |
| Prompt.Confirm | src/main.py:21-25 | the answer comes from the first decisive line, and every earlier line was ignored; input running out first is EOFError |
| Prompt.CompleteEmail | src/main.py:37-38 | the result contains '@', extends the input, and equals it when it already had '@' |
| Prompt.CompleteEmailIdempotent | src/main.py:37-38 | completing twice is completing once |
| Prompt.CompleteBareName | src/main.py:37-38 | a name without '@' gets exactly "@hey.com" appended |
| Text.IndexOf | src/hey.py:58-61 | the first occurrence of a character, used to split `get_cookie`'s header back into names and values: it is there, and not before; None iff absent |
| Text.IndexOfAfter | src/hey.py:61 | a character right after a stretch free of it is its first occurrence |
| Text.Join | src/hey.py:61 | a join starts with its first part |
| Text.JoinLength | src/hey.py:61 | a join of n parts has their total length plus n − 1 separators |
| Text.StripStart | src/hey.py:32 | `lstrip` never lengthens the text |
| Text.StripEnd | src/hey.py:32 | `rstrip` never lengthens the text |
| Text.Strip | src/hey.py:32 | `strip` leaves no whitespace at either end |
| Text.StripStartSpec | src/hey.py:32 | lstrip keeps a suffix, drops only whitespace, and stops at the first other character |
| Text.StripEndSpec | src/hey.py:32 | rstrip keeps a prefix, drops only whitespace, and stops at the last other character |
| Text.StripInfix | src/hey.py:32 | strip keeps a contiguous piece of the text and drops only whitespace around it |
| Text.StripTrimmed | src/hey.py:32 | text with no whitespace at either end is unchanged |
| Text.StripIdempotent | src/hey.py:32 | stripping twice is stripping once |
| Text.Decimal | src/main.py:118 | `str(n)` is all digits, at least one, without a leading zero unless n is 0 |
| Text.DecimalRoundTrip | src/main.py:118 | reading the digits of `str(n)` back gives n |
| Text.LeadingDigits | src/main.py:118 | the longest digit prefix of a text |
| Text.LeadingDigitsOf | src/main.py:118 | digits followed by a non-digit: the leading digits are exactly those digits |

## Left out

- Interactive set-up (`interactive_hey_setup`, `interactive_pushover_setup`), `getpass`, and the cookie and Pushover JSON files (src/main.py:27-103). This is terminal and file I/O. Only `confirm` and the email completion are modelled.
- Every HTTP call: sign-in, two-factor challenge, Pushover validation and the message POST. These are network calls. The notice is an output value; its delivery and the merge of the Pushover credentials into the request (src/main.py:121-123) are not modelled.
- HTML parsing with BeautifulSoup. The marker query becomes a boolean. The pending-senders page becomes the span texts of each sender heading. The home page becomes the channel attribute of each subscription meta tag.
- The websocket transport, JSON text, `asyncio` scheduling and real sleeping. Frames are datatypes, a sleep is a recorded duration, and websocket-level pings are the library's concern.
- Screening.Screener.Process: the notice names any new sender. CPython's set iteration order fixes one particular sender, which the model does not predict.
- Supervisor.Listen: `process` is not called from the loop. The log records which frames would be handed to it, and `ProcessInputs` gives the two inputs `Screener.Process` would receive for each. The snapshot fetched inside `process` is not part of the trace. Exceptions raised inside `process` (a failed page fetch, a heading without two spans, a failed POST) would also leave the loop; they are not part of the attempt trace.
- Supervisor.Listen: a JSON `type` value that is not a string is represented as a string other than "ping", because the loop only compares it with "ping". A `message` value that is not a string is represented as markup without the marker.
- Supervisor.BackoffBeforeFirstConnect: the delay is an exact integer number of milliseconds (100·2^k). The source uses a float in seconds, which would overflow to infinity after about a thousand consecutive failures.
- Hey.Files: keyword order is not modelled, because `files` is a map.
- Hey.CookieHeaderRoundTrip: holds only for cookie names without '=' or ';' and values without ';'. These are the only cookies RFC 6265 lets a server set; for others the header is ambiguous.
- Prompt.Answer: lower-casing is modelled for ASCII letters only. Only the first character decides, and no character other than 'Y' and 'N' lower-cases to 'y' or 'n'.
- Console output: the status prints of the loop and of `process` (src/main.py:122, 137, 144, 148). The event log records the same connection, subscription and handling steps instead.
- The cookie-jar helpers `get_cookies` and `apply_cookies`, which are thin wrappers over `requests.utils`, and the Python version check.
