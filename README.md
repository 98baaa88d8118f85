# Product availability tracker: a Dafny model

The tracker is a script. For each product in an inventory, it opens the
product page in a browser. It tries to click the page's add-to-cart button,
retrying until it has seen a fixed number of "not found" answers, and
records whether the product is available. It then emails one summary of the
available products to every recipient. This project models three parts of it
and proves properties of them:

- `probe.dfy` (module `Probe`): the retrying click probe `click_button`.
  Each attempt of the probe ends in one of three outcomes: the element was
  clicked, it was not found, or the driver raised some other error. The
  browser becomes a finite sequence of these outcomes, consumed one per
  attempt. `Run` states the loop as a recursive function. The method
  `ClickButton` is the loop itself, proved equal to `Run`, and the lemmas
  prove the promised behaviour of `Run`.
- `tracker.dfy` (module `Tracker`): the part of `main` after the inventory
  is loaded. The product list is an array of records. The availability loop
  updates each record's `available` field in place. The email lines,
  intro, subject and body are functions. Dispatch is a loop that appends
  one `Mail(recipient, subject, body)` per recipient to an outbox. The
  status lines the loop prints are returned as a list.
- `notify.py`'s `_build_email` is modelled in `notify.dfy` (module
  `Notify`) as `BuildEmail`. A parser `ParseEmail` is added as its inverse,
  and a round trip is proved.

The model follows the code as written, in these places:

- With an unrecognised lookup strategy, line 31 of `main.py` only
  evaluates `NotImplemented`. The next line then marks the button clicked.
  So, with a budget of at least one, the probe reports success without
  consulting the driver (`ProbeUnknownStrategy`). It does not report
  failure. With a budget of zero or less it reports false, as for every
  strategy (`ProbeNoBudget`).
- The pass never increments `notified_counter`. It does not write the
  inventory back.
- The pass composes and sends the notification even when no product
  qualifies. In that case it uses the singular phrasing
  (`EmptySelectionStillComposed`).

## Model

| member | source | states |
|---|---|---|
| `Probe.UsesDriver` | main.py:29-31 | Only the "xpath" and "class" strategies look the element up through the driver; any other string reaches the no-op branch |
| `Probe.Run` | main.py:25-38 | The loop consumes only outcomes that exist, and it stops only when its guard fails: clicked, budget spent, or (for a driver strategy) outcomes used up |
| `Probe.FinalState` | main.py:11-39 | The state after a whole call: no more attempts than outcomes, and no driver attempt and no retry spent for a strategy other than "xpath" or "class" |
| `Probe.ClickButton` | main.py:11-39 | The while loop over `retries` and `is_clicked` returns the click result and the number of driver attempts that `Run` specifies |
| `Probe.ProbeNoBudget` | main.py:25-27 | With `max_retries <= 0`, no attempt is made and the result is false |
| `Probe.ProbeRetriesBounded` | main.py:27-35 | `retries` never exceeds `max(0, max_retries)`; the loop exits only when clicked, when retries reach the budget, or when the outcomes run out |
| `Probe.ProbeCountsNotFound` | main.py:33-38 | For every strategy, `retries` equals the number of NotFound outcomes among the attempts made: each NotFound spends exactly one retry, and OtherError and Clicked spend none |
| `Probe.ProbeClickedIffSucceeded` | main.py:27-39 | For a driver strategy, the result is true iff some attempt clicked, and the first click is the last attempt (nothing is tried after success) |
| `Probe.ProbeClickedIffReachable` | main.py:27-39 | For a driver strategy, the result is true iff some outcome is a click that comes before `max_retries` NotFound answers |
| `Probe.ProbeAllNotFound` | main.py:27-36 | When each of the first `max_retries` attempts is NotFound, the probe returns false after exactly `max_retries` attempts |
| `Probe.ProbeOtherErrorsOnly` | main.py:37-38 | For a driver strategy, other errors are swallowed without spending a retry: with a budget of at least one, only OtherError outcomes leave retries at 0 and clicked false, and consume every outcome |
| `Probe.ProbeUnknownStrategy` | main.py:29-32 | With a strategy other than "xpath" or "class" and a budget of at least one, the probe returns true without a single driver attempt |
| `Notify.BuildEmail` | notify.py:19-30 | The message is "Subject: " and the subject, then a blank line, then the body unchanged; its length is the subject's length plus the body's length plus 11 |
| `Notify.ParseEmail` | notify.py:30 | Added inverse of the format: whatever it accepts is exactly the message built from the subject and body it returns |
| `Notify.RoundTrip` | notify.py:30 | For a subject without a newline, splitting the message at the first blank line after the header recovers the subject and the body exactly |
| `Tracker.CheckProduct` | main.py:61-73 | One product: the cookie probe ("xpath", one retry) is ignored; the returned record is the product marked by its add-to-cart probe, and the returned line is its status line |
| `Tracker.CheckAvailability` | main.py:60-73 | Each record is updated in place: `available` is set from that page's add-to-cart probe (class lookup, two retries), after a cookie probe whose result is ignored; one status line is printed per product |
| `Tracker.InStock` | main.py:67 | The add-to-cart probe ("class", two retries) clicks iff the page answers some attempt with a click before its second NotFound |
| `Tracker.Mark` | main.py:67-73 | One record after its probe: `available` is 1 iff the probe clicked and 0 otherwise; name, link and counter are unchanged |
| `Tracker.Marked` | main.py:60-73 | The list after the loop has the same length and order; each record is marked from its own page, with name, link and counter unchanged |
| `Tracker.StatusLine` | main.py:68-72 | The printed line starts with "Product " and the name, and ends " is available." iff `available` is 1, otherwise " is not available." |
| `Tracker.StatusLines` | main.py:60-72 | One printed line per product, in list order: line i is the status line of product i, naming it and saying whether it is available |
| `Tracker.EmailContent` | main.py:77 | The comprehension: never more lines than products, each line a "- " item ending in a newline |
| `Tracker.ContentIsFilter` | main.py:77 | A line is in the email iff it renders, as "- name: link\n", a product that is available and under the counter cap |
| `Tracker.ContentAppend` | main.py:77 | The email lines of a concatenated list are the lines of each part, in order, so list order is preserved |
| `Tracker.ContentLength` | main.py:77 | There is exactly one email line per qualifying product |
| `Tracker.PassSelection` | main.py:67-77 | After the availability loop, a product is listed iff its add-to-cart probe clicked and its counter is below `notified_max_counter` |
| `Tracker.EmailIntro` | main.py:78 | The intro starts "Hi,\n" and is the plural one iff there is more than one line, else the singular one |
| `Tracker.EmailSubject` | main.py:80 | The subject is the plural one iff there is more than one line, else the singular one |
| `Tracker.PluralIffSeveral` | main.py:78-80 | The plural subject and plural intro are used iff more than one product qualifies |
| `Tracker.EmailBody` | main.py:79 | The body is the intro, " \n ", the joined email lines, then the fixed signature " \n\nGr,\nNick" |
| `Tracker.ComposeEmail` | main.py:77-80 | The composed notification has a single-line subject and a body that ends with the signature |
| `Tracker.EmptySelectionStillComposed` | main.py:77-80 | With no qualifying product, the notification is still composed: singular subject, singular intro and no product lines |
| `Tracker.SendToAll` | main.py:84-85 | One send per recipient, in recipient order, each with the identical subject and body |
| `Tracker.Wire` | notify.py:47 | The text handed to the transport for one mail is the "Subject: " header with the subject, then a blank line, then the body unchanged, 11 characters longer than both together |
| `Tracker.ComposedEmailReadsBack` | main.py:80-85 | Both subjects are single-line, so every message handed to the transport reads back as the subject and body it was composed from |
| `Tracker.CheckAndNotify` | main.py:59-85 | The pass updates the product array in place as above. It then sends one mail per recipient, all with the subject and body composed from the updated list |

## Left out

- Browser driver creation, page navigation and `driver.close()` (main.py:44, 61, 88-89) are foreign calls. Each product's page is an input `Page`: one outcome sequence for the cookie probe and one for the add-to-cart probe. The model requires exactly one page per product.
- The selector strings given to `click_button` are opaque to the model. The outcome sequence stands for the driver's answers to that selector. The "xpath" and "class" lookups behave alike in the model.
- `sleep(1)` between retries is not modelled (no clock).
- `print(e)` for other driver errors is not modelled, because the exception text comes from the driver. The swallowing of those errors is modelled.
- `Probe.Run`: with a real driver that keeps raising other errors, the loop need not terminate. In the model, a driver strategy also stops when its outcome sequence is used up.
- Loading the inventory JSON from the fixed path, and the early return when the file is missing (main.py:49-57), are file I/O. The product array and `notified_max_counter` are inputs.
- Records are assumed well-formed. The filter's `and` stops early, so `notified_counter` is read only for products whose `available` is 1. Such a product without a `notified_counter` key would raise a KeyError in the comprehension; this is not modelled.
- Product records are values in an array that the loop updates in place. The aliasing of the dicts between the list and the loaded inventory is not modelled, because nothing in the shown code observes it.
- `Notify.__init__` (environment variables) and the SMTP login and `sendmail` in `send_email` (notify.py:11-17, 32-50) are network I/O. A send is a `Mail` record in the outbox, and its wire text is `BuildEmail` of its subject and body.
- Tracker.SendToAll: assumes every send succeeds. In the source, `notifier.send_email` (main.py:85) is not inside a `try`. A send that raises ends `main`: later recipients get no mail and the browser is not closed (main.py:88-89). Unset credentials are one such case, because `Notify.__init__` only prints (notify.py:15-17) and the first `client.login` (notify.py:44) then raises.
- Tracker.CheckAndNotify: assumes every page load and every send succeeds. A `driver.get` that raises (main.py:61) ends `main` there: the remaining products are not probed, no mail is sent and the browser is not closed. A failing send ends it as described for `Tracker.SendToAll`.
- `Recipients.get_recipients()` is not part of this model. The recipient list is an input sequence.
- Incrementing `notified_counter`, writing the inventory back, and skipping an empty notification are not in this code, so the model does not add them.
