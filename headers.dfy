/**
 * The header lookup of app/main.py: the value of the first header with a
 * given name, or a default (`next(generator, default)`).
 */
module Headers {
  import opened Wrappers

  /** One `{'name': ..., 'value': ...}` entry of a message's `payload.headers`. */
  datatype Header = Header(name: string, value: string)

  /** Index `i` holds the first header called `name`. */
  ghost predicate IsFirstNamed(headers: seq<Header>, name: string, i: int) {
    0 <= i < |headers| && headers[i].name == name &&
    forall j :: 0 <= j < i ==> headers[j].name != name
  }

  /** The value of the first header named exactly `name`, if there is one. */
  function FindHeader(headers: seq<Header>, name: string): (r: Option<string>)
    ensures r.None? <==> forall i :: 0 <= i < |headers| ==> headers[i].name != name
    ensures r.Some? ==> exists i :: IsFirstNamed(headers, name, i) && headers[i].value == r.value
  {
    if headers == [] then None
    else if headers[0].name == name then
      assert IsFirstNamed(headers, name, 0);
      Some(headers[0].value)
    else
      var r := FindHeader(headers[1..], name);
      assert forall i :: 1 <= i < |headers| ==> headers[i] == headers[1..][i - 1];
      assert r.Some? ==> exists i :: IsFirstNamed(headers, name, i) && headers[i].value == r.value by {
        if r.Some? {
          var i :| IsFirstNamed(headers[1..], name, i) && headers[1..][i].value == r.value;
          assert IsFirstNamed(headers, name, i + 1);
        }
      }
      r
  }

  /** `subject`: the first "Subject" header, or "No Subject". */
  function SubjectOf(headers: seq<Header>): (r: string)
    ensures (forall i :: 0 <= i < |headers| ==> headers[i].name != "Subject") ==> r == "No Subject"
    ensures (exists i :: 0 <= i < |headers| && headers[i].name == "Subject") ==>
              exists i :: IsFirstNamed(headers, "Subject", i) && headers[i].value == r
  {
    FindHeader(headers, "Subject").GetOr("No Subject")
  }

  /** `date`: the first "Date" header, or None. */
  function DateOf(headers: seq<Header>): (r: Option<string>)
    ensures r.None? <==> forall i :: 0 <= i < |headers| ==> headers[i].name != "Date"
    ensures r.Some? ==> exists i :: IsFirstNamed(headers, "Date", i) && headers[i].value == r.value
  {
    FindHeader(headers, "Date")
  }

  /** `sender`: the first "From" header, or "Unknown Sender". */
  function SenderOf(headers: seq<Header>): (r: string)
    ensures (forall i :: 0 <= i < |headers| ==> headers[i].name != "From") ==> r == "Unknown Sender"
    ensures (exists i :: 0 <= i < |headers| && headers[i].name == "From") ==>
              exists i :: IsFirstNamed(headers, "From", i) && headers[i].value == r
  {
    FindHeader(headers, "From").GetOr("Unknown Sender")
  }
}
