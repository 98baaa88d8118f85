/**
 * One pass of the availability tracker (`main`, after the inventory is
 * loaded): probe every product's page, record in place whether it can be
 * added to the cart, compose one notification from the products that are
 * available and under their notification cap, and send it to every
 * recipient.
 *
 * The browser is replaced by one `Page` per product, holding the outcomes
 * its two probes observe; the mail transport by the list of `Mail` records
 * the pass hands to it; the console by the list of lines it prints.
 */
module Tracker {
  import Probe
  import Notify

  /** A product record of the inventory, as the pass reads and updates it. */
  datatype Product = Product(name: string, link: string, available: int, notifiedCounter: int)

  /** What the browser answers on one product page, per probe. */
  datatype Page = Page(cookieBanner: seq<Probe.Outcome>, addToCart: seq<Probe.Outcome>)

  /** One call of the notifier's send operation. */
  datatype Mail = Mail(recipient: string, subject: string, body: string)

  /** A composed notification. */
  datatype Email = Email(subject: string, body: string)

  const SingularIntro := "Hi,\nThis product is available:"
  const PluralIntro := "Hi,\nThese products are available:"
  const SingularSubject := "Product is available!"
  const PluralSubject := "Products are available!"
  const Signature := " \n\nGr,\nNick"

  // ---------------------------------------------------------------------
  // The availability loop

  /**
   * Whether the add-to-cart probe (class lookup, two retries) clicks on
   * `page`: iff the page answers some attempt with a click before it has
   * answered "not found" twice.
   */
  predicate InStock(page: Page)
    ensures InStock(page) <==>
      exists j :: 0 <= j < |page.addToCart| && page.addToCart[j] == Probe.Clicked
                  && Probe.CountNotFound(page.addToCart[..j]) < 2
  {
    Probe.ProbeClickedIffReachable("class", 2, page.addToCart);
    Probe.FinalState("class", 2, page.addToCart).clicked
  }

  /** A product after its page has been probed. */
  function Mark(p: Product, page: Page): (r: Product)
    ensures r.name == p.name && r.link == p.link && r.notifiedCounter == p.notifiedCounter
    ensures r.available == 1 <==> InStock(page)
    ensures r.available == 0 <==> !InStock(page)
  {
    p.(available := if InStock(page) then 1 else 0)
  }

  /**
   * The product list after the availability loop: same length and order,
   * every record marked from its own page.
   */
  function Marked(ps: seq<Product>, pages: seq<Page>): (r: seq<Product>)
    requires |pages| == |ps|
    ensures |r| == |ps|
    ensures forall i :: 0 <= i < |ps| ==>
      r[i].name == ps[i].name && r[i].link == ps[i].link && r[i].notifiedCounter == ps[i].notifiedCounter &&
      (r[i].available == 1 <==> InStock(pages[i])) && (r[i].available == 0 <==> !InStock(pages[i]))
  {
    seq(|ps|, i requires 0 <= i < |ps| => Mark(ps[i], pages[i]))
  }

  /** The line the loop prints about a probed product. */
  function StatusLine(p: Product): (r: string)
    ensures |r| > 8 + |p.name| && r[..8 + |p.name|] == "Product " + p.name
    ensures r[8 + |p.name|..] == " is available." <==> p.available == 1
    ensures p.available != 1 ==> r[8 + |p.name|..] == " is not available."
  {
    "Product " + p.name + (if p.available == 1 then " is available." else " is not available.")
  }

  /** The lines the loop prints, one per product, naming it, in list order. */
  function StatusLines(ps: seq<Product>): (r: seq<string>)
    ensures |r| == |ps|
    ensures forall i :: 0 <= i < |ps| ==> r[i] == StatusLine(ps[i])
  {
    seq(|ps|, i requires 0 <= i < |ps| => StatusLine(ps[i]))
  }

  /**
   * One iteration of the availability loop: dismiss the cookie banner
   * (best effort, one retry, result ignored), probe the add-to-cart button
   * (two retries), and return the record with `available` set to 1 or 0,
   * together with the line printed about it.
   */
  method CheckProduct(product: Product, page: Page) returns (checked: Product, line: string)
    ensures checked == Mark(product, page)
    ensures line == StatusLine(checked)
  {
    var _, _ := Probe.ClickButton(page.cookieBanner, "xpath", 1);
    var isClicked, _ := Probe.ClickButton(page.addToCart, "class", 2);
    if isClicked {
      checked := product.(available := 1);
    } else {
      checked := product.(available := 0);
    }
    line := StatusLine(checked);
  }

  /**
   * The availability loop: for each product in order, dismiss the cookie
   * banner (best effort, one retry, result ignored), probe the add-to-cart
   * button (two retries) and set `available` to 1 or 0 in place.
   */
  method CheckAvailability(products: array<Product>, pages: seq<Page>) returns (console: seq<string>)
    requires |pages| == products.Length
    modifies products
    ensures products[..] == Marked(old(products[..]), pages)
    ensures console == StatusLines(products[..])
  {
    var i := 0;
    console := [];
    while i < products.Length
      invariant 0 <= i <= products.Length
      invariant forall j :: 0 <= j < i ==> products[j] == Mark(old(products[j]), pages[j])
      invariant forall j :: i <= j < products.Length ==> products[j] == old(products[j])
      invariant |console| == i
      invariant forall j :: 0 <= j < i ==> console[j] == StatusLine(products[j])
    {
      var checked, line := CheckProduct(products[i], pages[i]);
      products[i] := checked;
      console := console + [line];
      i := i + 1;
    }
    MarkedPointwise(old(products[..]), pages, products[..]);
    StatusLinesPointwise(products[..], console);
  }

  lemma MarkedPointwise(ps: seq<Product>, pages: seq<Page>, qs: seq<Product>)
    requires |pages| == |ps| == |qs|
    requires forall j :: 0 <= j < |ps| ==> qs[j] == Mark(ps[j], pages[j])
    ensures qs == Marked(ps, pages)
  {
  }

  lemma StatusLinesPointwise(ps: seq<Product>, lines: seq<string>)
    requires |lines| == |ps|
    requires forall j :: 0 <= j < |ps| ==> lines[j] == StatusLine(ps[j])
    ensures lines == StatusLines(ps)
  {
  }

  // ---------------------------------------------------------------------
  // Composing the notification

  /** The filter of the email comprehension. */
  predicate Qualifies(p: Product, notifiedMaxCounter: int)
  {
    p.available == 1 && p.notifiedCounter < notifiedMaxCounter
  }

  function EmailLine(p: Product): string
  {
    "- " + p.name + ": " + p.link + "\n"
  }

  /**
   * The email lines: one per qualifying product, in list order. There are
   * never more lines than products, and each is a "- " item ending in a
   * newline.
   */
  function EmailContent(ps: seq<Product>, notifiedMaxCounter: int): (r: seq<string>)
    ensures |r| <= |ps|
    ensures forall k :: 0 <= k < |r| ==> |r[k]| >= 5 && r[k][..2] == "- " && r[k][|r[k]| - 1] == '\n'
  {
    if ps == [] then []
    else (if Qualifies(ps[0], notifiedMaxCounter) then [EmailLine(ps[0])] else [])
         + EmailContent(ps[1..], notifiedMaxCounter)
  }

  /** How many products qualify for the notification. */
  function CountQualifying(ps: seq<Product>, notifiedMaxCounter: int): nat
  {
    if ps == [] then 0
    else CountQualifying(ps[..|ps| - 1], notifiedMaxCounter)
         + (if Qualifies(ps[|ps| - 1], notifiedMaxCounter) then 1 else 0)
  }

  /** Joins the lines without a separator. */
  function Concat(lines: seq<string>): string
  {
    if lines == [] then "" else lines[0] + Concat(lines[1..])
  }

  /** The greeting, plural exactly when there is more than one line. */
  function EmailIntro(content: seq<string>): (r: string)
    ensures |r| > 4 && r[..4] == "Hi,\n"
    ensures r == PluralIntro <==> |content| > 1
    ensures r == SingularIntro <==> |content| <= 1
  {
    if |content| > 1 then PluralIntro else SingularIntro
  }

  /** The subject, plural exactly when there is more than one line. */
  function EmailSubject(content: seq<string>): (r: string)
    ensures r == PluralSubject <==> |content| > 1
    ensures r == SingularSubject <==> |content| <= 1
  {
    if |content| > 1 then PluralSubject else SingularSubject
  }

  /** The fixed body format: intro, the joined lines, the signature. */
  function EmailBody(intro: string, content: seq<string>): (r: string)
    ensures |r| == |intro| + 3 + |Concat(content)| + |Signature|
    ensures r[..|intro| + 3] == intro + " \n "
    ensures r[|intro| + 3..|r| - |Signature|] == Concat(content)
    ensures r[|r| - |Signature|..] == Signature
  {
    intro + " \n " + Concat(content) + Signature
  }

  /**
   * The notification the pass composes from the probed product list: a
   * single-line subject and a body that ends with the signature.
   */
  function ComposeEmail(ps: seq<Product>, notifiedMaxCounter: int): (r: Email)
    ensures forall j :: 0 <= j < |r.subject| ==> r.subject[j] != '\n'
    ensures |r.body| >= |Signature| && r.body[|r.body| - |Signature|..] == Signature
  {
    var content := EmailContent(ps, notifiedMaxCounter);
    Email(EmailSubject(content), EmailBody(EmailIntro(content), content))
  }

  lemma {:induction false} ContentAppend(ps: seq<Product>, qs: seq<Product>, notifiedMaxCounter: int)
    ensures EmailContent(ps + qs, notifiedMaxCounter)
         == EmailContent(ps, notifiedMaxCounter) + EmailContent(qs, notifiedMaxCounter)
  {
    if ps == [] {
      assert ps + qs == qs;
    } else {
      assert (ps + qs)[1..] == ps[1..] + qs;
      ContentAppend(ps[1..], qs, notifiedMaxCounter);
    }
  }

  /** There is one email line per qualifying product. */
  lemma {:induction false} ContentLength(ps: seq<Product>, notifiedMaxCounter: int)
    ensures |EmailContent(ps, notifiedMaxCounter)| == CountQualifying(ps, notifiedMaxCounter)
    decreases |ps|
  {
    if ps != [] {
      var init, last := ps[..|ps| - 1], ps[|ps| - 1];
      assert ps == init + [last];
      ContentAppend(init, [last], notifiedMaxCounter);
      ContentLength(init, notifiedMaxCounter);
      assert EmailContent([last], notifiedMaxCounter)
          == (if Qualifies(last, notifiedMaxCounter) then [EmailLine(last)] else []);
    }
  }

  /**
   * A line is in the email iff it renders a qualifying product of the
   * list; with `ContentAppend` this says the content is exactly the
   * qualifying products, rendered in list order.
   */
  lemma {:induction false} ContentIsFilter(ps: seq<Product>, notifiedMaxCounter: int)
    ensures forall line :: line in EmailContent(ps, notifiedMaxCounter) <==>
      exists i :: 0 <= i < |ps| && Qualifies(ps[i], notifiedMaxCounter) && EmailLine(ps[i]) == line
  {
    forall line | line in EmailContent(ps, notifiedMaxCounter)
      ensures exists i :: 0 <= i < |ps| && Qualifies(ps[i], notifiedMaxCounter) && EmailLine(ps[i]) == line
    {
      ContentLinesQualify(ps, notifiedMaxCounter, line);
    }
    forall i | 0 <= i < |ps| && Qualifies(ps[i], notifiedMaxCounter)
      ensures EmailLine(ps[i]) in EmailContent(ps, notifiedMaxCounter)
    {
      QualifyingIsListed(ps, notifiedMaxCounter, i);
    }
  }

  /** Every email line renders some qualifying product. */
  lemma {:induction false} ContentLinesQualify(ps: seq<Product>, notifiedMaxCounter: int, line: string)
    requires line in EmailContent(ps, notifiedMaxCounter)
    ensures exists i :: 0 <= i < |ps| && Qualifies(ps[i], notifiedMaxCounter) && EmailLine(ps[i]) == line
  {
    var head := if Qualifies(ps[0], notifiedMaxCounter) then [EmailLine(ps[0])] else [];
    assert EmailContent(ps, notifiedMaxCounter) == head + EmailContent(ps[1..], notifiedMaxCounter);
    if line in head {
      assert Qualifies(ps[0], notifiedMaxCounter) && EmailLine(ps[0]) == line;
    } else {
      ContentLinesQualify(ps[1..], notifiedMaxCounter, line);
      var i :| 0 <= i < |ps[1..]| && Qualifies(ps[1..][i], notifiedMaxCounter) && EmailLine(ps[1..][i]) == line;
      assert ps[i + 1] == ps[1..][i];
    }
  }

  /** Every qualifying product is listed. */
  lemma {:induction false} QualifyingIsListed(ps: seq<Product>, notifiedMaxCounter: int, i: nat)
    requires i < |ps| && Qualifies(ps[i], notifiedMaxCounter)
    ensures EmailLine(ps[i]) in EmailContent(ps, notifiedMaxCounter)
  {
    var head := if Qualifies(ps[0], notifiedMaxCounter) then [EmailLine(ps[0])] else [];
    assert EmailContent(ps, notifiedMaxCounter) == head + EmailContent(ps[1..], notifiedMaxCounter);
    if i > 0 {
      QualifyingIsListed(ps[1..], notifiedMaxCounter, i - 1);
      assert ps[1..][i - 1] == ps[i];
    }
  }

  /**
   * After the availability loop, a product is listed iff its add-to-cart
   * probe clicked and its counter is below the cap.
   */
  lemma PassSelection(ps: seq<Product>, pages: seq<Page>, notifiedMaxCounter: int, i: int)
    requires |pages| == |ps| && 0 <= i < |ps|
    ensures Qualifies(Marked(ps, pages)[i], notifiedMaxCounter)
        <==> InStock(pages[i]) && ps[i].notifiedCounter < notifiedMaxCounter
  {
  }

  /** The plural intro and subject are used iff more than one product qualifies. */
  lemma PluralIffSeveral(ps: seq<Product>, notifiedMaxCounter: int)
    ensures ComposeEmail(ps, notifiedMaxCounter).subject == PluralSubject
        <==> CountQualifying(ps, notifiedMaxCounter) > 1
    ensures ComposeEmail(ps, notifiedMaxCounter).subject == SingularSubject
        <==> CountQualifying(ps, notifiedMaxCounter) <= 1
    ensures EmailIntro(EmailContent(ps, notifiedMaxCounter)) == PluralIntro
        <==> CountQualifying(ps, notifiedMaxCounter) > 1
  {
    ContentLength(ps, notifiedMaxCounter);
    assert PluralSubject != SingularSubject && PluralIntro != SingularIntro by {
      assert |PluralSubject| != |SingularSubject| && |PluralIntro| != |SingularIntro|;
    }
  }

  /**
   * The pass composes a notification even when nothing qualifies: it uses
   * the singular phrasing and lists no product.
   */
  lemma EmptySelectionStillComposed(ps: seq<Product>, notifiedMaxCounter: int)
    requires CountQualifying(ps, notifiedMaxCounter) == 0
    ensures ComposeEmail(ps, notifiedMaxCounter)
         == Email(SingularSubject, "Hi,\nThis product is available: \n  \n\nGr,\nNick")
  {
    ContentLength(ps, notifiedMaxCounter);
    var content := EmailContent(ps, notifiedMaxCounter);
    assert content == [] && Concat(content) == "";
    assert EmailIntro(content) == SingularIntro && EmailSubject(content) == SingularSubject;
    var body := EmailBody(SingularIntro, content);
    assert body == SingularIntro + " \n " + "" + Signature;
    assert body == "Hi,\nThis product is available: \n  \n\nGr,\nNick";
  }

  // ---------------------------------------------------------------------
  // Dispatch

  /** The loop over the recipients: one send per recipient, same subject and body. */
  method SendToAll(recipients: seq<string>, subject: string, body: string) returns (outbox: seq<Mail>)
    ensures |outbox| == |recipients|
    ensures forall i :: 0 <= i < |recipients| ==> outbox[i] == Mail(recipients[i], subject, body)
  {
    outbox := [];
    for i := 0 to |recipients|
      invariant |outbox| == i
      invariant forall j :: 0 <= j < i ==> outbox[j] == Mail(recipients[j], subject, body)
    {
      outbox := outbox + [Mail(recipients[i], subject, body)];
    }
  }

  /**
   * What the notifier hands to the mail transport for one send: the
   * subject header line, then the body unchanged.
   */
  function Wire(mail: Mail): (r: string)
    ensures |r| == |mail.subject| + |mail.body| + 11
    ensures r[..9 + |mail.subject|] == "Subject: " + mail.subject
    ensures r[9 + |mail.subject|..11 + |mail.subject|] == "\n\n"
    ensures r[|r| - |mail.body|..] == mail.body
  {
    Notify.BuildEmail(mail.subject, mail.body)
  }

  /**
   * Both subjects are single lines, so every message the pass sends reads
   * back as the subject and body it was composed from.
   */
  lemma ComposedEmailReadsBack(ps: seq<Product>, notifiedMaxCounter: int, recipient: string)
    ensures var e := ComposeEmail(ps, notifiedMaxCounter);
            Notify.ParseEmail(Wire(Mail(recipient, e.subject, e.body))) == Notify.Some((e.subject, e.body))
  {
    var e := ComposeEmail(ps, notifiedMaxCounter);
    Notify.RoundTrip(e.subject, e.body);
  }

  // ---------------------------------------------------------------------
  // The pass

  /**
   * The part of `main` after loading: the availability loop, then the
   * notification composed from the updated list and sent to every
   * recipient. The counters are neither incremented nor written back.
   */
  method CheckAndNotify(products: array<Product>, notifiedMaxCounter: int, pages: seq<Page>, recipients: seq<string>)
    returns (console: seq<string>, outbox: seq<Mail>)
    requires |pages| == products.Length
    modifies products
    ensures products[..] == Marked(old(products[..]), pages)
    ensures console == StatusLines(products[..])
    ensures |outbox| == |recipients|
    ensures forall i :: 0 <= i < |recipients| ==>
      outbox[i] == Mail(recipients[i], ComposeEmail(products[..], notifiedMaxCounter).subject,
                        ComposeEmail(products[..], notifiedMaxCounter).body)
  {
    console := CheckAvailability(products, pages);
    var content := EmailContent(products[..], notifiedMaxCounter);
    var intro := EmailIntro(content);
    var body := EmailBody(intro, content);
    var subject := EmailSubject(content);
    outbox := SendToAll(recipients, subject, body);
  }
}
