/**
  The client's Accept-Encoding preferences. Parsing and sorting the header
  value belong to an external quality-value library; its output enters the
  model as a given sequence of (token, q) entries.
*/
module Negotiation {
  import opened Wrappers
  import opened Encoding

  /** One parsed entry: a coding token and its quality value. */
  datatype QValue = QValue(value: string, q: real)

  /** What the external parser made of a non-empty header value. */
  datatype ParseOutcome = Malformed | Parsed(sorted: seq<QValue>)

  /**
    The preference list of a request: nothing for an absent (empty) header
    or for one the parser rejects, the parser's sorted entries otherwise.
  */
  function ParseAcceptedEncoding(header: string, parsed: ParseOutcome): (vs: seq<QValue>)
    ensures header == "" ==> vs == []
    ensures parsed.Malformed? ==> vs == []
    ensures header != "" && parsed.Parsed? ==> vs == parsed.sorted
  {
    if header == "" then []
    else match parsed
      case Malformed => []
      case Parsed(sorted) => sorted
  }

  /** Entries are in non-increasing order of q, as the external sort promises. */
  ghost predicate SortedByQ(vs: seq<QValue>) {
    forall i, j :: 0 <= i < j < |vs| ==> vs[i].q >= vs[j].q
  }

  /** Some entry carries token `t`, whatever its q. */
  ghost predicate Mentions(vs: seq<QValue>, t: string) {
    exists i :: 0 <= i < |vs| && vs[i].value == t
  }

  /** The tokens of the preference list, as the set of keys of a token-indexed map. */
  function AcceptedTokens(vs: seq<QValue>): (s: set<string>)
    ensures forall t :: t in s <==> Mentions(vs, t)
  {
    set v | v in vs :: v.value
  }

  /**
    The position of the first entry whose token is valid, scanning the list
    in preference order; None when no entry is valid.
  */
  function FirstValidIndex(vs: seq<QValue>): (r: Option<nat>)
    ensures r.Some? ==> r.value < |vs| && IsValid(vs[r.value].value)
    ensures r.Some? ==> forall j :: 0 <= j < r.value ==> !IsValid(vs[j].value)
    ensures r.None? <==> forall j :: 0 <= j < |vs| ==> !IsValid(vs[j].value)
  {
    if vs == [] then None
    else if IsValid(vs[0].value) then Some(0)
    else
      match FirstValidIndex(vs[1..])
      case None => None
      case Some(i) => Some(i + 1)
  }

  /**
    Over a sorted list the first valid entry is a most preferred valid
    entry, and the earliest among the valid entries of equal weight.
  */
  lemma FirstValidIsMostPreferred(vs: seq<QValue>, j: nat)
    requires SortedByQ(vs)
    requires FirstValidIndex(vs).Some?
    requires j < |vs| && IsValid(vs[j].value)
    ensures vs[j].q <= vs[FirstValidIndex(vs).value].q
    ensures FirstValidIndex(vs).value <= j
  {
  }
}
