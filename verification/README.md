# JulianaNFC card handling, modelled in Dafny

JulianaNFC connects a USB contactless reader to browser clients over websockets.
When a card is presented it decides what kind of tag it is and screens its UID.
For a usable card it builds a small record (type, UID, and for ISO 14443-A also
ATQA and SAK) and sends that record to every connected websocket client. A
background reader manager keeps trying to open a reader and restarts the card
manager whenever a reader appears.

This project models that logic from `juliana.py` as pure Dafny functions and
proves what it promises:

- `base.dfy` (`Base`) holds the byte type, an option type and sequence reversal
  (the `[::-1]` that turns `sens_res` into ATQA).
- `hex.dfy` (`Hex`) is the lowercase colon-separated hex form
  (`":".join("{:02x}".format(b) for b in bs)`). It also has the inverse:
  Python's `str.split(":")` followed by parsing each group. The two are proved
  to be mutual inverses on non-empty byte strings.
- `cards.dfy` (`Cards`) covers `handle_card`, `handle_card_type_a` and
  `handle_card_type_4b`. This includes the AN10927 UID screening: a random ID is
  a 4-byte UID starting with 0x08; a fixed non-unique ID is a 4-byte UID whose
  first byte has low nibble 0xF. It also builds the `iso-a` and `iso-b` records,
  which are modelled as the Python dict, a `map<string, string>`.
- `broadcast.dfy` (`Broadcast`) covers `send_nfc_tag` and `on_connect`.
  `send_nfc_tag` logs a summary by record type and then tries every client in
  list order. What happens when a send is tried depends on the client:
  - `Open`: the send succeeds.
  - `Closed`: it raises `ConnectionClosed`, which is swallowed, and the loop
    goes on.
  - `Faulty`: it raises any other exception, which leaves the loop.
- `readers.dfy` (`Readers`) models the open/retry loop of
  `RfidReaderManager.run` as a step function over
  `(clf.device, just_started, card managers, alive)`, plus finite runs of it.

Inputs from the outside world are parameters:
- the tag object nfcpy hands over (`Cards.Tag`);
- the result of each client's `send` (`Broadcast.Link`);
- the result of `clf.open` (`Readers.OpenResult`);
- a reader that disappears while open (`Readers.ReaderDetached`).

Some behaviour of `juliana.py` is easy to misread, and the model follows the code:
- `send_nfc_tag` does not remove a client whose send raises `ConnectionClosed`
  from `socket_clients`. Only the websocket handler removes clients.
- `send_nfc_tag` catches only `ConnectionClosed`, per client. Any other
  exception ends the loop, and later clients are not tried.
- Tag types come from nfcpy's tag classes. `iso-4` appears only as a branch of
  the console summary, and no handler produces it.
- The reader manager's `except Exception` branch calls
  `traceback.format_exc(e)`, which passes the exception as the `limit`
  argument. Python's traceback module then raises `TypeError` on `limit >= 0`.
  The thread dies there, before the error line, the toast and `sys.exit(2)`.
  The model has both this branch as written and the evidently intended one
  (see "## Findings"). In both, only the reader manager's thread ends, not the
  process.

## Model

| member | source | states |
|---|---|---|
| `Hex.ByteHexRoundTrip` | juliana.py:149 | each byte's two-digit `{:02x}` form parses back to the same byte |
| `Hex.ByteHex` | juliana.py:149 | `"{:02x}".format(b)` is always exactly two characters, each a lowercase hexadecimal digit |
| `Hex.JoinEnds` | juliana.py:149 | `":".join(parts)` of at least one part starts with the first part and ends with the last |
| `Base.Reverse` | juliana.py:150 | `sens_res[::-1]`: the same length, with element i of the result being element n-1-i of the input |
| `Hex.ColonHex` | juliana.py:149-151 | the colon-join of n >= 1 bytes has 3n-1 characters, and of no bytes is the empty string |
| `Hex.ColonHexRoundTrip` | juliana.py:149 | splitting a non-empty colon form on `:` and parsing each group gives back the original bytes |
| `Hex.ParseColonHexCanonical` | juliana.py:149 | every string that splits and parses successfully is the colon form of the (at least one) bytes it parses to, so format and parse are inverse both ways |
| `Hex.ColonHexInjective` | juliana.py:149 | two different identifiers never get the same `uid` string |
| `Hex.SplitJoin` | juliana.py:149 | `:`-splitting a `:`-join of separator-free groups returns exactly those groups |
| `Hex.JoinSplit` | juliana.py:149 | `:`-joining the parts of any split rebuilds the string |
| `Cards.CheckUid` | juliana.py:131-145 | a 4-byte UID starting with 0x08 is rejected as random; a 4-byte UID whose first byte has low nibble 0xF is rejected as non-unique; every other UID, of any length, is accepted |
| `Cards.UidRulesCommute` | juliana.py:133-141 | the two rejection tests are disjoint, so applying them in the opposite order gives the same verdict for every UID |
| `Cards.ColonHexEncodes` | juliana.py:149-151 | each record field built with the colon-join expression reads back to the bytes it was built from, and is empty exactly when they are |
| `Cards.IsoARecord` | juliana.py:147-152 | the `iso-a` record has exactly the keys type, uid, atqa and sak; uid reads back to the identifier, atqa to `sens_res` reversed, sak to `sel_res` |
| `Cards.IsoBRecord` | juliana.py:157-160 | the `iso-b` record has exactly the keys type and uid, and uid reads back to the identifier |
| `Cards.HandleTypeA` | juliana.py:128-152 | rejected exactly for the random and non-unique 4-byte UIDs, with the matching reason; otherwise one record with exactly the keys type, uid, atqa and sak, where type is `iso-a`, uid encodes the identifier, atqa encodes `sens_res` reversed, and sak encodes `sel_res` |
| `Cards.HandleTypeB` | juliana.py:155-160 | always one record with exactly the keys type and uid, where type is `iso-b` and uid encodes the identifier |
| `Cards.HandleCard` | juliana.py:103-125 | Type 2 and Type 4A tags go to the type-A handler; Type 4B goes to the type-B handler; Type 1 and Type 3 are rejected as unsupported; any other tag is rejected as unknown |
| `Cards.HandleCardEmits` | juliana.py:103-160 | a record is emitted iff the tag is Type 4B, or is Type 2 or Type 4A with an accepted UID; its type is `iso-a` iff the tag is Type 2 or 4A and `iso-b` iff it is 4B; atqa and sak are present iff the tag is Type 2 or 4A |
| `Cards.HandleCardUid` | juliana.py:146-160 | every emitted record has a uid that encodes the card's identifier |
| `Cards.IsoAExample` | juliana.py:146-152 | a Type 2 tag with UID AA BB CC DD, `sens_res` 44 03 and `sel_res` 08 yields `{type: iso-a, uid: aa:bb:cc:dd, atqa: 03:44, sak: 08}` |
| `Broadcast.Summary` | juliana.py:251-260 | a KeyError is raised exactly when the type key is missing, or a key the chosen branch reads is missing; the branch follows the type (`iso-a`, `iso-4`, `iso-b`, or anything else); the level is info exactly for the three known types, and the summary carries the record's uid |
| `Broadcast.HandledRecordsSummarise` | juliana.py:251-258 | every record the card handlers emit gets an info-level summary without a KeyError, so sending is always reached |
| `Broadcast.DeliveriesCarry` | juliana.py:262-265 | every message the send loop can deliver is the one record passed to `send_nfc_tag`, unchanged |
| `Broadcast.SendAll` | juliana.py:262-267 | the loop raises iff some client's send fails with something other than `ConnectionClosed`. Every client before the first such failure is tried once, in list order, and exactly the open ones among them receive the record, in order; the failing client is tried too and nothing after it. Every delivery carries the unchanged record |
| `Broadcast.SendNfcTag` | juliana.py:247-267 | the logged summary is the one chosen by the record's type; a record whose summary raises reaches no client; otherwise the send loop's guarantees hold |
| `Broadcast.OnConnect` | juliana.py:162-167 | a rejected card sends nothing to anyone and raises nothing; an accepted card's record always gets past the summary, reaches exactly the open clients before the first unexpected send failure, in order, and every delivered message is that record |
| `Readers.StopCurrent` | juliana.py:203-204 | after `card_manager.running = False`, no created card manager is running, and none is removed or changed otherwise |
| `Readers.Step` | juliana.py:193-218 | a detach only unsets the device; once the thread has ended, a pass changes nothing; with a device set, a pass changes nothing; a failed open warns iff `just_started` was set and clears it, changing nothing else; a raising open ends the thread and changes nothing else, reporting `OpenError` only in the intended branch and nothing as written; a new card manager is created iff an open succeeds, and then every earlier manager is stopped and keeps its device, the new one runs and becomes current, and the reader is reported found; `just_started` and `alive` are never set again; the manager stays valid |
| `Readers.Run` | juliana.py:193-218 | the loop over a finite list of inputs, as a fold of `Step`, keeps the manager valid: `card_manager` refers to a created manager, and only it may be running |
| `Readers.RunSnoc` | juliana.py:193-218 | one more pass of the loop extends the run by exactly one `Step`, from the state the run reached |
| `Readers.StepWarnings` | juliana.py:207-211 | one pass gives at most one "No readers found." warning, and none once `just_started` is cleared |
| `Readers.RunWarnsAtMostOnce` | juliana.py:207-211 | over any run, the warning appears at most once, and never once `just_started` has been cleared |
| `Readers.WarnsAtMostOnce` | juliana.py:188-211 | from start-up, any run gives the "No readers found." warning at most once |
| `Readers.AtMostOneRunning` | juliana.py:189-206 | after any run from start-up, at most one card manager is marked running, and it is the current `card_manager` |
| `Readers.RunLoop` | juliana.py:191-218 | the `while self.running` loop over a finite input list ends in the same state and events as the fold `Run`, with at most one warning and at most one running card manager, for either except branch |
| `Readers.NeverReportedAsWritten` | juliana.py:213-218 | as written, no run from any valid state ever reports `OpenError`: the report at line 215 is unreachable |
| `Readers.SilentThreadDeath` | juliana.py:213-218 | at start-up with no reader and a raising `clf.open`, the as-written thread ends with no event, while the intended one ends after reporting `OpenError` |
| `Readers.ExitReported` | juliana.py:213-218 | with the intended branch, every run that ends a live reader manager reports `OpenError` |

## Left out

- The nfcpy driver calls `clf.connect` and `clf.sense`, the card manager's connect loop, and the 0.3 s removal poll in `on_release` (juliana.py:92-100, 169-176). These are hardware calls with timing loops. A presented card is the `Tag` argument of `OnConnect`.
- Broadcast.OnConnect: does not return the `True` of juliana.py:167, which tells nfcpy to wait for the card to be removed before connecting again. That is part of the driver's connect loop above.
- Threads, daemon flags, `time.sleep` and the three-second retry interval. A pass of the reader loop is one `Step`, with no timing.
- Exceptions raised inside the reader loop's `try` by `print_console`, `notify_toast` or `self.card_manager.start()` (juliana.py:201-211). These are foreign calls. Only `clf.open` may raise in the model (`OpenRaised`), so the partial updates such a failure would leave behind, for example `just_started` already cleared, are not modelled.
- The Flask and flask_sock server, the CORS setup and the websocket handler that appends and removes clients (juliana.py:221-244). These are network I/O. The client list is an input to `SendAll` and is never returned changed.
- `json.dumps`. The message a client receives is the record value itself.
- The text of `print_console` log lines and `notify_toast` toasts. Rejections and reader events are modelled as the datatypes `Cards.Rejection` and `Readers.Event`.
- Broadcast.Summary: models which branch and which log level are chosen, not the formatted text, and not the `repr` of an unknown record.
- The kiosk `Popen` xset call, `resource_path`, `SingleInstance`, command-line parsing and the main block. These are process control and foreign calls.
- `gui/controller.py` and `gui/about.py`, the wxPython user interface.
- The order of a record's keys. A record is a map, while the Python dict and the JSON text keep insertion order.
- The text of the traceback and the uncaught-`TypeError` dump that Python's threading module writes to stderr. The model records only that the thread ends, and whether `OpenError` is reported.
- Concurrent changes to `socket_clients` while `send_nfc_tag` iterates over it. The model sends to one snapshot of the list.

## Findings

| source | as written | input that shows it | evidently intended | confidence | as-written member | corrected member |
|---|---|---|---|---|---|---|
| juliana.py:213-218 | `traceback.format_exc(e)` passes the exception as `limit`, so Python's traceback module raises `TypeError` on `limit >= 0`; the thread dies without the "Could not open card reader" line, the toast or `sys.exit(2)` | `clf.open` raising while no reader is open, e.g. at start-up (`Run(Init, [Pass(OpenRaised)], AsWritten)`) | format the traceback without an argument, report the error, then end the thread | high; not executed, relies on the behaviour of Python's traceback module | `Readers.NeverReportedAsWritten` | `Readers.ExitReported` |
