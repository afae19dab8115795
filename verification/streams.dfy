/** What a `fetch` with a streamed response body looks like to its caller. Both the
    route (reading the inference service) and the page (reading the route) consume one. */
module Streams {
  import opened Wrappers

  /** A readable body as its reader sees it: the already-decoded text of every
      successful `reader.read()`, in order, and whether the read after the last one
      throws instead of reporting `done`. */
  datatype Body = Body(chunks: seq<string>, broken: bool)

  /** The outcome of one `fetch`: the request rejected outright, or a response with
      a status and (when `response.body` is not null) a body. */
  datatype Reply =
    | FetchFailed
    | Responded(status: int, body: Option<Body>)

  /** `response.ok`. */
  predicate IsOk(status: int) {
    200 <= status <= 299
  }

  /** The text obtained by appending the chunks in order. */
  function Concat(cs: seq<string>): string {
    if cs == [] then "" else Concat(cs[..|cs| - 1]) + cs[|cs| - 1]
  }

  /** Reading chunk lists one after another gives the texts one after another. */
  lemma {:induction false} ConcatAppend(a: seq<string>, b: seq<string>)
    ensures Concat(a + b) == Concat(a) + Concat(b)
    decreases |b|
  {
    if b == [] {
      assert a + b == a;
    } else {
      var n := |b| - 1;
      assert (a + b)[..|a + b| - 1] == a + b[..n];
      ConcatAppend(a, b[..n]);
    }
  }

  /** One more chunk extends the text by exactly that chunk. */
  lemma ConcatSnoc(cs: seq<string>, i: nat)
    requires i < |cs|
    ensures Concat(cs[..i + 1]) == Concat(cs[..i]) + cs[i]
  {
    assert cs[..i + 1][..i] == cs[..i];
  }
}
