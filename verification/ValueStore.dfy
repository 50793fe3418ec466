/**
 The abstract store every provider should be: for each name a set of values, to which `present` adds one
 value and from which `delete` removes its own. Two values at one name coexist (section 8.4 of RFC 8555).
 */
module ValueStore {
  import opened Records

  datatype Op = Present(record: DnsRecord) | Delete(record: DnsRecord)

  /** The set at `name` after one operation. */
  function AbstractStep(values: set<string>, op: Op, name: string): set<string> {
    if op.record.fqdn != name then values
    else if op.Present? then values + {op.record.value}
    else values - {op.record.value}
  }

  function AbstractRun(values: set<string>, ops: seq<Op>, name: string): set<string> {
    if ops == [] then values
    else AbstractStep(AbstractRun(values, ops[..|ops| - 1], name), ops[|ops| - 1], name)
  }

  function AsSet(values: seq<string>): set<string> {
    set v | v in values
  }

  /** The list without `v`, in order. */
  function Without(values: seq<string>, v: string): (r: seq<string>)
    ensures |r| <= |values|
    ensures forall x :: x in r <==> x in values && x != v
    ensures v !in values <==> |r| == |values|
    ensures v !in values ==> r == values
  {
    if values == [] then []
    else
      assert values == [values[0]] + values[1..];
      if values[0] == v then Without(values[1..], v) else [values[0]] + Without(values[1..], v)
  }

  /** The list with `v` in it once more only if it was not there. */
  function With(values: seq<string>, v: string): (r: seq<string>)
    ensures forall x :: x in r <==> x in values || x == v
    ensures Without(r, v) == Without(values, v)
  {
    if v in values then values
    else
      WithoutPushed(values, v);
      values + [v]
  }

  lemma {:induction false} WithoutPushed(values: seq<string>, v: string)
    requires v !in values
    ensures Without(values + [v], v) == values
  {
    if values == [] {
      assert ([v])[1..] == [] && values + [v] == [v];
    } else {
      WithoutPushed(values[1..], v);
      assert (values + [v])[0] == values[0] && (values + [v])[1..] == values[1..] + [v];
    }
  }

  predicate NoDuplicates(values: seq<string>) {
    forall i, j :: 0 <= i < j < |values| ==> values[i] != values[j]
  }

  lemma {:induction false} WithoutKeepsDistinct(values: seq<string>, v: string)
    requires NoDuplicates(values)
    ensures NoDuplicates(Without(values, v))
  {
    if values != [] {
      WithoutKeepsDistinct(values[1..], v);
      assert values[0] !in values[1..];
      assert values[0] !in Without(values[1..], v);
    }
  }

  /** The list at a name after an operation on it. */
  function ChangedValues(values: seq<string>, op: Op): seq<string> {
    if op.Present? then With(values, op.record.value) else Without(values, op.record.value)
  }

  /** Changing the list is changing the set, and never makes a duplicate. */
  lemma StepValues(values: seq<string>, op: Op)
    ensures NoDuplicates(values) ==> NoDuplicates(ChangedValues(values, op))
    ensures AsSet(ChangedValues(values, op)) == AbstractStep(AsSet(values), op, op.record.fqdn)
  {
    if NoDuplicates(values) {
      WithoutKeepsDistinct(values, op.record.value);
    }
  }
}
