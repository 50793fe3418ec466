/** Challenge records and the checks every record passes before it is published. */
module Records {
  import opened Wrappers

  datatype AcmeError =
    | InvalidFqdn(fqdn: string)
    | InvalidValue(value: string)
    | Acme(why: string)
    | NoDns01Challenge
    | InvalidOrder(status: OrderStatus)
    | Config(why: string)
    | NotPropagated(why: string)

  datatype OrderStatus = OrderReady | OrderPending | OrderProcessing | OrderValid | OrderInvalid

  datatype DnsRecord = DnsRecord(fqdn: string, value: string)

  predicate NameChar(c: char) {
    'a' <= c <= 'z' || 'A' <= c <= 'Z' || '0' <= c <= '9' || c == '.' || c == '-' || c == '_'
  }

  /** The parts of `s` between occurrences of `sep`; at least one part. */
  function Split<T(==)>(s: seq<T>, sep: T): (r: seq<seq<T>>)
    ensures r != []
  {
    if s == [] then [[]]
    else if s[0] == sep then [[]] + Split(s[1..], sep)
    else
      var rest := Split(s[1..], sep);
      [[s[0]] + rest[0]] + rest[1..]
  }

  predicate ValidLabel(part: string) {
    0 < |part| <= 63 && part[0] != '-'
  }

  predicate ValidFqdn(fqdn: string) {
    && 0 < |fqdn| <= 253
    && (forall i :: 0 <= i < |fqdn| ==> NameChar(fqdn[i]))
    && forall i :: 0 <= i < |Split(fqdn, '.')| ==> ValidLabel(Split(fqdn, '.')[i])
  }

  predicate Printable(c: char) {
    '!' <= c <= '~'
  }

  predicate ValidValue(value: string) {
    value != "" && forall i :: 0 <= i < |value| ==> Printable(value[i])
  }

  /** Builds a record, or says which half is unusable. */
  function NewRecord(fqdn: string, value: string): (r: Result<DnsRecord, AcmeError>)
    ensures r.Ok? <==> ValidFqdn(fqdn) && ValidValue(value)
    ensures r.Ok? ==> r.value.fqdn == fqdn && r.value.value == value
    ensures !ValidFqdn(fqdn) ==> r == Err(InvalidFqdn(fqdn))
    ensures ValidFqdn(fqdn) && !ValidValue(value) ==> r == Err(InvalidValue(value))
  {
    if !ValidFqdn(fqdn) then Err(InvalidFqdn(fqdn))
    else if !ValidValue(value) then Err(InvalidValue(value))
    else Ok(DnsRecord(fqdn, value))
  }
}
