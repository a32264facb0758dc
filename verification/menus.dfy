/**
  The `inquiry` and `support` commands: a fixed menu, then one reply from the
  user, answered with one of three canned embeds or the invalid-option embed.
  Both commands share the same dispatch; only their three answers differ.
 */
module Menus {

  /** The part of a reply embed that carries meaning (emoji and markdown dropped). */
  datatype Embed = Embed(title: string, description: string, color: nat)

  /** The three canned answers of a menu, for options "1", "2" and "3". */
  datatype Menu = Menu(first: Embed, second: Embed, third: Embed)

  const InvalidOption := Embed("Invalid Option", "Please select a valid option (1, 2, or 3).", 0xff0000)

  const InquiryMenu := Menu(
    Embed("Flight Arrival Status", "The flight is expected to arrive on time.", 0x00ff00),
    Embed("Flight Delay Information", "There is a slight delay in the arrival due to weather conditions.", 0xffcc00),
    Embed("Terminal Information", "The flight will arrive at Terminal 3.", 0x3498db))

  const SupportMenu := Menu(
    Embed("Luggage Delay Report", "Your luggage is delayed but will arrive soon. Thank you for your patience!", 0xffcc00),
    Embed("Missing Items Report", "Please report any missing items to our customer support for further assistance.", 0x3498db),
    Embed("Ticket Postpone Assistance", "You can postpone your ticket by contacting support. Our team will assist you shortly.", 0x00ff00))

  /** A reply that names a menu option: exactly "1", "2" or "3", compared verbatim. */
  predicate IsOption(reply: string) {
    reply == "1" || reply == "2" || reply == "3"
  }

  /** A menu whose four possible answers are pairwise different. */
  predicate Distinct(m: Menu) {
    && m.first != m.second && m.first != m.third && m.second != m.third
    && m.first != InvalidOption && m.second != InvalidOption && m.third != InvalidOption
  }

  /** The if/elif chain both commands run on the reply's text. */
  function Respond(m: Menu, reply: string): (e: Embed)
    ensures e in {m.first, m.second, m.third, InvalidOption}
    ensures reply == "1" ==> e == m.first
    ensures reply == "2" ==> e == m.second
    ensures reply == "3" ==> e == m.third
    ensures !IsOption(reply) ==> e == InvalidOption
  {
    if reply == "1" then m.first
    else if reply == "2" then m.second
    else if reply == "3" then m.third
    else InvalidOption
  }

  /** `inquiry`: the arrival, delay and terminal answers for "1", "2" and "3",
      the invalid-option answer for every other reply. */
  function Inquiry(reply: string): (e: Embed)
    ensures e in {InquiryMenu.first, InquiryMenu.second, InquiryMenu.third, InvalidOption}
    ensures reply == "1" ==> e.title == "Flight Arrival Status"
    ensures reply == "2" ==> e.title == "Flight Delay Information"
    ensures reply == "3" ==> e.title == "Terminal Information"
    ensures e == InvalidOption <==> !IsOption(reply)
  {
    MenusAreDistinct();
    Respond(InquiryMenu, reply)
  }

  /** `support`: the luggage, missing-items and postpone answers for "1", "2"
      and "3", the invalid-option answer for every other reply. */
  function Support(reply: string): (e: Embed)
    ensures e in {SupportMenu.first, SupportMenu.second, SupportMenu.third, InvalidOption}
    ensures reply == "1" ==> e.title == "Luggage Delay Report"
    ensures reply == "2" ==> e.title == "Missing Items Report"
    ensures reply == "3" ==> e.title == "Ticket Postpone Assistance"
    ensures e == InvalidOption <==> !IsOption(reply)
  {
    MenusAreDistinct();
    Respond(SupportMenu, reply)
  }

  /** Both menus are distinct. */
  lemma MenusAreDistinct()
    ensures Distinct(InquiryMenu) && Distinct(SupportMenu)
  {
  }

  /** In a distinct menu, two replies get the same answer exactly when they are
      the same option or both are not options: three distinct answers, and one
      shared answer for everything else. */
  lemma SameAnswerIffSameOption(m: Menu, a: string, b: string)
    requires Distinct(m)
    ensures Respond(m, a) == Respond(m, b) <==> a == b || (!IsOption(a) && !IsOption(b))
    ensures Respond(m, a) == InvalidOption <==> !IsOption(a)
  {
  }

  /** `inquiry` and `support` classify every reply the same way: the same
      replies are invalid, and the same replies get the same answer. */
  lemma InquiryAndSupportAgree(a: string, b: string)
    ensures Inquiry(a) == InvalidOption <==> Support(a) == InvalidOption
    ensures Inquiry(a) == Inquiry(b) <==> Support(a) == Support(b)
  {
    MenusAreDistinct();
    SameAnswerIffSameOption(InquiryMenu, a, b);
    SameAnswerIffSameOption(SupportMenu, a, b);
  }
}
