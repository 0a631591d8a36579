/**
 * The listing side of `fetch_and_classify_emails`: the provider answers
 * each listing call with one page of messages and possibly a continuation
 * token, and the loop stops after the first page whose token is falsy.
 */
module Paging {
  import opened Wrappers
  import opened Headers

  /** A message as fetched in full: its id, its headers and its snippet. */
  datatype Message = Message(id: string, headers: seq<Header>, snippet: string)

  /** One listing response: `messages` (missing means empty) and `nextPageToken`. */
  datatype Page = Page(messages: seq<Message>, nextPageToken: Option<string>)

  /** Python truthiness of a token: neither missing nor the empty string. */
  predicate Truthy(token: Option<string>) {
    token.Some? && token.value != ""
  }

  /** The page announces a further page. */
  predicate HasNext(page: Page) {
    Truthy(page.nextPageToken)
  }

  /** The provider's answers, in call order, eventually include a last page. */
  ghost predicate Terminates(pages: seq<Page>) {
    exists k :: 0 <= k < |pages| && !HasNext(pages[k])
  }

  lemma TerminatesTail(pages: seq<Page>)
    requires Terminates(pages) && HasNext(pages[0])
    ensures Terminates(pages[1..])
  {
  }

  /** The index of the page after which the loop stops. */
  function LastPage(pages: seq<Page>): (t: nat)
    requires Terminates(pages)
    ensures t < |pages| && !HasNext(pages[t])
    ensures forall i :: 0 <= i < t ==> HasNext(pages[i])
    decreases |pages|
  {
    if !HasNext(pages[0]) then 0
    else
      TerminatesTail(pages);
      var t := LastPage(pages[1..]);
      assert forall i :: 1 <= i <= t + 1 ==> pages[i] == pages[1..][i - 1];
      t + 1
  }

  /** The messages the loop visits: page after page until one has no next token. */
  function Walk(pages: seq<Page>): seq<Message>
    requires Terminates(pages)
    decreases |pages|
  {
    if HasNext(pages[0]) then
      TerminatesTail(pages);
      pages[0].messages + Walk(pages[1..])
    else pages[0].messages
  }

  /** All messages of `pages`, in order. */
  function Concat(pages: seq<Page>): seq<Message> {
    if pages == [] then [] else Concat(pages[..|pages| - 1]) + pages[|pages| - 1].messages
  }

  /** One more page adds its messages at the end. */
  lemma ConcatSnoc(pages: seq<Page>, k: nat)
    requires k < |pages|
    ensures Concat(pages[..k + 1]) == Concat(pages[..k]) + pages[k].messages
  {
    assert pages[..k + 1][..k] == pages[..k];
  }

  lemma {:induction false} ConcatCons(page: Page, pages: seq<Page>)
    ensures Concat([page] + pages) == page.messages + Concat(pages)
    decreases |pages|
  {
    if pages != [] {
      var all := [page] + pages;
      assert all[..|all| - 1] == [page] + pages[..|pages| - 1];
      ConcatCons(page, pages[..|pages| - 1]);
    }
  }

  /**
   * Every message of every page up to and including the last one is
   * visited, in provider order, and nothing after it.
   */
  lemma {:induction false} WalkIsConcat(pages: seq<Page>)
    requires Terminates(pages)
    ensures Walk(pages) == Concat(pages[..LastPage(pages) + 1])
    decreases |pages|
  {
    if HasNext(pages[0]) {
      TerminatesTail(pages);
      WalkIsConcat(pages[1..]);
      var t := LastPage(pages[1..]);
      assert pages[..t + 2] == [pages[0]] + pages[1..][..t + 1];
      ConcatCons(pages[0], pages[1..][..t + 1]);
    } else {
      assert pages[..1] == [pages[0]];
      assert Concat(pages[..1]) == Concat([]) + pages[0].messages;
    }
  }

  /** A non-empty token standing for "there is more". */
  const MoreToken: string := "more"

  /** How a provider splits `messages` into pages of at most `size` messages. */
  function Paginate(messages: seq<Message>, size: nat): (pages: seq<Page>)
    requires size > 0
    ensures Terminates(pages)
    ensures forall k :: 0 <= k < |pages| ==> |pages[k].messages| <= size
    decreases |messages|
  {
    if |messages| <= size then
      var pages := [Page(messages, None)];
      assert !HasNext(pages[0]);
      pages
    else
      var rest := Paginate(messages[size..], size);
      var k :| 0 <= k < |rest| && !HasNext(rest[k]);
      var pages := [Page(messages[..size], Some(MoreToken))] + rest;
      assert pages[k + 1] == rest[k];
      pages
  }

  /**
   * Paging completeness for any split: when only the final page lacks a
   * next token, the loop visits every message of every page, in order.
   */
  lemma WalkOfListing(pages: seq<Page>)
    requires |pages| > 0 && !HasNext(pages[|pages| - 1])
    requires forall i :: 0 <= i < |pages| - 1 ==> HasNext(pages[i])
    ensures Terminates(pages)
    ensures Walk(pages) == Concat(pages)
  {
    assert !HasNext(pages[|pages| - 1]);
    var t := LastPage(pages);
    assert t == |pages| - 1;
    WalkIsConcat(pages);
    assert pages[..t + 1] == pages;
  }

  /** Paging completeness for a split into consecutive pages of `size` messages (the last one possibly shorter). */
  lemma {:induction false} PaginateRoundTrip(messages: seq<Message>, size: nat)
    requires size > 0
    ensures Walk(Paginate(messages, size)) == messages
    decreases |messages|
  {
    if |messages| > size {
      var pages := Paginate(messages, size);
      assert pages[1..] == Paginate(messages[size..], size);
      PaginateRoundTrip(messages[size..], size);
      assert messages == messages[..size] + messages[size..];
    }
  }
}
