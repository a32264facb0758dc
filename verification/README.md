# Flight-booking chat bot: a Dafny model of its booking logic

The bot lets chat users book, look up and cancel flight tickets. Bookings live
in one SQLite table, `bookings`, whose primary key is an 8-character
`ticket_id`. Booking takes two modal forms. The first form's fields are kept
in the process-wide dictionary `temp_data`, keyed by user, until the second
form completes the row. The bot also has two menu commands, `inquiry` and
`support`, and a paged listing of the whole table, `show_database`.

This project models that logic once the chat plumbing is taken away:

- `PyText` (`py_text.dfy`) models the two Python conversions the bot relies on.
  `str(n)` prints the ticket ID's numbers. `int(text)` parses the age and price
  fields and raises `ValueError` on anything that is not an integer literal.
- `TicketIds` (`ticket_id.dfy`) models `generate_ticket_id`. The five random
  draws are a parameter. It also holds the inverse that reads the draws back
  out of an ID.
- `Bookings` (`bookings.dfy`) models the state: the table as a map from
  `ticket_id` to row, plus the per-user drafts. The two form-submit handlers,
  `lookup` and `cancel` are pure functions from a state to the next state and
  a reply. Three exceptions are modelled as a `Raised` reply: `ValueError`
  from `int()`, `OverflowError` from binding an integer, and `IntegrityError`
  from a duplicate key. Each escapes before anything is written. Failures of
  the chat platform's send calls are not modelled (see "Left out").
- `Listing` (`listing.dfy`) models the paging loop of `show_database` as a
  method with loop invariants. A reference chunking function stands beside it.
- `Menus` (`menus.dfy`) models the option dispatch that `inquiry` and
  `support` share.

Things the code does that a reader might not expect, all modelled:

- A non-numeric age raises before `temp_data` is assigned. Any earlier draft
  of that user stays as it was.
- A non-numeric price raises while the INSERT's arguments are being built.
  That is before the INSERT and before `temp_data.pop`, so the draft survives.
- sqlite3 cannot bind a Python `int` outside the signed 64-bit range and
  raises `OverflowError`. So an age or price such as `99999999999999999999`
  passes `int()` but aborts the INSERT. The draft survives.
- A generated ID that is already a key makes the INSERT fail with
  `IntegrityError`. There is no retry. The table and the draft are unchanged.
- `cancel` deletes at once. The help text says confirmation is requested, but
  the code never asks.

## Model

| member | source | states |
|---|---|---|
| PyText.NatToString | main.py:36 | `str(n)` of a non-negative number is a canonical decimal numeral: digits only, no leading zero, and its value is `n` |
| PyText.NatToStringOfValue | main.py:36 | printing the value of any canonical numeral gives that numeral back, so numerals and numbers correspond one to one |
| PyText.IntToString | main.py:36 | `str(i)`: a canonical numeral whose value is `i` for `i >= 0`; for negative `i`, a minus sign followed by the canonical numeral of `-i` |
| PyText.ParseInt | main.py:61 | `int(text)` succeeds only on text that contains a decimal digit; otherwise it raises |
| PyText.ParseIntOfLiteral | main.py:61 | whitespace, then "", "+" or "-", then digits with single underscores between them (leading zeros allowed), then whitespace, reads as the digits' value, negated only for "-" |
| PyText.ParseIntAcceptsOnlyLiterals | main.py:61 | conversely, `int(text)` succeeds only when the text is whitespace, a signed digit run, and whitespace |
| PyText.ParseIntRejectsStrayChars | main.py:61 | `int(text)` succeeds only on text made of digits, underscores, signs and whitespace; any other character, such as the `a` of "12a", makes it raise |
| PyText.ParseIntOfIntToString | main.py:120 | `int(str(i)) == i` for every integer, negative ones included |
| PyText.ParseIntIgnoresPadding | main.py:61 | whitespace before a field and whitespace after it, each chosen independently, do not change what `int()` reads |
| TicketIds.Generate | main.py:35-36 | the ID has length 8: four digits forming the drawn number 1000..9999 (first digit not '0'), two uppercase letters, one digit, one uppercase letter, each the drawn value |
| TicketIds.FourDigits | main.py:36 | `randint(1000, 9999)` always prints as exactly four characters |
| TicketIds.Decode | main.py:36 | every well-formed ID reads back as draws within the `random` ranges |
| TicketIds.DecodeGenerate | main.py:36 | decoding a generated ID gives back the draws, so different draws give different IDs |
| TicketIds.GenerateDecode | main.py:36 | regenerating from a decoded ID gives the same ID |
| TicketIds.GeneratedExactlyTicketIds | main.py:35-36 | a string can come out of `generate_ticket_id` exactly when it has the 8-character shape |
| Bookings.SubmitBasicDetails | main.py:57-72 | with a numeric age, only this user's draft is set: name, passport and countries verbatim, age parsed; other drafts and the table unchanged; a non-numeric age raises and changes nothing |
| Bookings.SubmitAdditionalDetails | main.py:99-128 | without a draft, replies "No basic details found." and changes nothing; it books exactly when the draft exists, the price parses, both integers fit SQLite's 64-bit INTEGER and the ID is new; then exactly one row is inserted under the generated ID, holding the draft's five fields and the form's four with the parsed price, and only this user's draft is removed; otherwise it raises, in the source's order: `ValueError` for a non-numeric price, `OverflowError` for an age and then a price outside SQLite's 64-bit range, `IntegrityError` for an ID already in the table; every outcome but a booking leaves the table and the drafts unchanged, so the draft survives |
| Bookings.Lookup | main.py:171-193 | never changes the state; shows the full row exactly when the ID is a key, else "Ticket ID not found." |
| Bookings.Cancel | main.py:195-210 | with the key present, removes exactly that row and replies that the ticket is canceled; without it, changes nothing and replies "Ticket ID not found."; drafts are never touched |
| Bookings.BasicDetailsPreserveValidTable | main.py:18-29 | the first form never breaks the table invariant: each row stored under its own well-formed ticket ID, with age and price in SQLite's integer range |
| Bookings.AdditionalDetailsPreserveValidTable | main.py:106-125 | a completed booking keeps the table invariant |
| Bookings.CancelPreservesValidTable | main.py:203-205 | deleting a row keeps the table invariant |
| Bookings.LookupShowsRequestedTicket | main.py:176-191 | in a valid table, the row lookup shows carries the ID that was typed |
| Bookings.LookupAfterBooking | main.py:106-128 | after a completed booking, looking up its ID shows the booked row |
| Bookings.DraftUsedOnce | main.py:101-104 | after a completed booking, submitting the second form again gets "No basic details found." and changes nothing |
| Bookings.CancelThenNotFound | main.py:200-210 | after cancel, lookup of the same ID is not found, and a second cancel changes nothing |
| Bookings.CancelUndoesBooking | main.py:109-125 | cancelling a fresh booking returns the table to what it was before the booking |
| Bookings.PurchaseScenario | main.py:57-128 | from an empty state, the forms for Alice, age "30", price "500" book one ticket, empty the drafts, and lookup shows all ten fields as typed |
| Listing.Paginate | main.py:326-352 | the pages list the rows in order, each row once; no page is empty; each page's fields stay within 25; every page but the last holds 3 rows; there are ceil(n/3) pages; the result equals the reference chunking |
| Listing.ChunksArePaging | main.py:326-352 | the reference chunking is such a paging and has ceil(n/3) pages |
| Listing.PagingIsUnique | main.py:326-352 | any in-order paging into full pages of 3 and a non-empty last page is the reference chunking |
| Listing.RowPosition | main.py:328-348 | row `i` appears on page `i / 3` in slot `i % 3` |
| Listing.ShowDatabase | main.py:313-357 | replies "No bookings" exactly when there are no rows; otherwise sends a paging of the rows with ceil(n/3) pages |
| Listing.ListingShowsTable | main.py:315-316 | over a full read of the table, the listing is empty exactly when the table is, and every stored booking appears at the page position of its row |
| Listing.TenRowsFourPages | main.py:329 | ten rows make four pages of 3, 3, 3 and 1 rows |
| Menus.Respond | main.py:233-256 | "1", "2" and "3" get the menu's first, second and third answer; every other reply gets the invalid-option answer |
| Menus.Inquiry | main.py:216-256 | `inquiry` answers "1" with Flight Arrival Status, "2" with Flight Delay Information, "3" with Terminal Information, as its menu text lists them, and with the invalid-option embed exactly when the reply is not "1", "2" or "3" |
| Menus.Support | main.py:267-307 | `support` answers "1" with Luggage Delay Report, "2" with Missing Items Report, "3" with Ticket Postpone Assistance, as its menu text lists them, and with the invalid-option embed exactly when the reply is not "1", "2" or "3" |
| Menus.MenusAreDistinct | main.py:284-307 | the three answers of each menu differ from each other and from the invalid-option answer |
| Menus.SameAnswerIffSameOption | main.py:233-256 | two replies get the same answer exactly when they are the same option or neither is an option |
| Menus.InquiryAndSupportAgree | main.py:284-307 | `inquiry` and `support` classify every reply identically: the same replies are invalid, and the same pairs of replies share an answer |

## Left out

- Chat gateway, bot setup, embed and emoji text, and Modal/Button/View rendering (main.py:1-11, 131-168). Only each handler's effect on state and the kind of reply are modelled. The `PurchaseView` cancel button only sends a message, so it has no model.
- `bot.wait_for` and the 30-second timeouts. This is asynchronous I/O. The typed reply or ticket ID is a parameter. The timeout handler names `asyncio`, which is never imported, so that path would itself raise `NameError`. It is not modelled.
- The SQLite connection, cursor, `commit` and `close`. The table is a map keyed by its primary key. The row order of `SELECT *` is an input sequence to the listing.
- The `random` module. The five draws are a parameter restricted to the ranges `random` can return.
- The cancel confirmation that the help text promises. The code does not ask for one.
- Menus.Respond, Menus.Inquiry, Menus.Support: these cover only users who have set an avatar. Both commands put `ctx.author.avatar.url` in the menu footer (main.py:224, main.py:275). For a user without a custom avatar, discord.py 2 makes `avatar` `None`, so the command raises `AttributeError` before the menu is sent, outside the `try`, and the dispatch is never reached. The avatar is chat-platform state and is not modelled.
- Failures of the chat platform's send calls. Every reply assumes Discord accepts the embed: at most 1024 characters per field value and 6000 per embed. The name field has no length limit below 4000, so a long name can make the confirmation at main.py:143 raise `HTTPException`. That happens after the row is committed and the draft popped, while the model replies `Booked`. The same limits can make the lookup reply (main.py:191) fail. A failing listing page (main.py:355) stops the pages after it.
- The hard-coded token and `bot.run`.
- PyText.ParseInt: Python's `int()` also accepts non-ASCII decimal digits, such as Arabic-Indic digits. Here they count as non-numeric. The model does not follow Python's 4300-digit limit either. Form fields are at most 4000 characters, so no field reaches it.
- Form-field constraints (`required=True`, length limits) are not modelled. The forms hold arbitrary strings, which is a superset of what the platform delivers.
- How the platform reports an exception that escapes a submit handler. It is modelled only as the `Raised` reply, with the state unchanged.
- The column selection and titles of each listing page. A page is the sequence of rows it shows.
