/** The propagation check: every authoritative nameserver must return the value, CNAMEs followed a few hops. */
module Propagation {
  import opened Wrappers
  import opened Records

  const MAX_CNAME_HOPS: nat := 4

  const TOO_MANY_HOPS := "too many CNAME hops"

  datatype Server = Server(address: string, port: nat)

  datatype TxtAnswer = TxtAnswer(values: seq<string>, cname: Option<string>)

  /** Who is authoritative for a name, and what a server says about it: any two functions. */
  datatype Authority = Authority(
    servers: string -> Result<seq<Server>, AcmeError>,
    txt: (Server, string) -> Result<TxtAnswer, string>)

  // ----- what the servers of one name say -----

  predicate Holds(auth: Authority, server: Server, name: string, value: string) {
    var answer := auth.txt(server, name);
    answer.Ok? && value in answer.value.values
  }

  /** `server` has no value at `name` but a CNAME to `target`. */
  predicate Redirects(auth: Authority, server: Server, name: string, target: string) {
    auth.txt(server, name) == Ok(TxtAnswer([], Some(target)))
  }

  /** The target of the first server in the list that redirects. */
  function FirstRedirect(auth: Authority, servers: seq<Server>, name: string): Option<string> {
    if servers == [] then None
    else
      var answer := auth.txt(servers[0], name);
      if answer.Ok? && answer.value.values == [] && answer.value.cname.Some? then answer.value.cname
      else FirstRedirect(auth, servers[1..], name)
  }

  lemma {:induction false} FirstRedirectIsStated(auth: Authority, servers: seq<Server>, name: string)
    ensures var t := FirstRedirect(auth, servers, name);
      && (t.Some? ==> exists i :: 0 <= i < |servers| && Redirects(auth, servers[i], name, t.value))
      && (t.None? ==> forall i, target :: 0 <= i < |servers| ==> !Redirects(auth, servers[i], name, target))
  {
    if servers != [] {
      var answer := auth.txt(servers[0], name);
      if answer.Ok? && answer.value.values == [] && answer.value.cname.Some? {
        assert Redirects(auth, servers[0], name, answer.value.cname.value);
      } else {
        FirstRedirectIsStated(auth, servers[1..], name);
        if FirstRedirect(auth, servers[1..], name).Some? {
          var i :| 0 <= i < |servers[1..]| && Redirects(auth, servers[1..][i], name, FirstRedirect(auth, servers, name).value);
          assert servers[i + 1] == servers[1..][i];
        }
      }
    }
  }

  // ----- chains of names -----

  /** One server at least is authoritative for `name`, and every one of them returns the value. */
  predicate Confirmed(auth: Authority, name: string, value: string) {
    var s := auth.servers(name);
    s.Ok? && s.value != [] && forall i :: 0 <= i < |s.value| ==> Holds(auth, s.value[i], name, value)
  }

  /** The servers of `name` send the check on to `next`. */
  predicate Leads(auth: Authority, name: string, next: string) {
    var s := auth.servers(name);
    s.Ok? && FirstRedirect(auth, s.value, name) == Some(next)
  }

  /** A chain of names, each led to from the one before. */
  ghost predicate Chain(auth: Authority, names: seq<string>, start: string) {
    names != [] && names[0] == start && forall i :: 0 <= i < |names| - 1 ==> Leads(auth, names[i], names[i + 1])
  }

  /** What the check answers from `name` on, with `hops` redirects left. */
  function Walk(auth: Authority, name: string, value: string, hops: nat): Result<(), AcmeError>
    decreases hops
  {
    var s := auth.servers(name);
    if s.Err? then Err(s.error)
    else if s.value == [] then Err(NotPropagated(name))
    else
      match FirstRedirect(auth, s.value, name)
      case Some(target) => if hops == 0 then Err(Config(TOO_MANY_HOPS)) else Walk(auth, target, value, hops - 1)
      case None => if Confirmed(auth, name, value) then Ok(()) else Err(NotPropagated(name))
  }

  /** A positive answer comes from the end of a chain of at most `hops` redirects. */
  lemma {:induction false} WalkSound(auth: Authority, name: string, value: string, hops: nat)
    requires Walk(auth, name, value, hops).Ok?
    ensures exists names :: Chain(auth, names, name) && |names| <= hops + 1 && Confirmed(auth, names[|names| - 1], value)
    decreases hops
  {
    var s := auth.servers(name);
    match FirstRedirect(auth, s.value, name)
    case Some(target) =>
      WalkSound(auth, target, value, hops - 1);
      var rest :| Chain(auth, rest, target) && |rest| <= hops && Confirmed(auth, rest[|rest| - 1], value);
      var names := [name] + rest;
      forall i | 0 <= i < |names| - 1 ensures Leads(auth, names[i], names[i + 1]) {
        if i > 0 {
          assert Leads(auth, rest[i - 1], rest[i]);
        }
      }
      assert Chain(auth, names, name) && names[|names| - 1] == rest[|rest| - 1];
    case None =>
      assert Chain(auth, [name], name);
  }

  /** A confirmed name sends nobody on: no server of it redirects. */
  lemma {:induction false} ConfirmedIsEnd(auth: Authority, name: string, value: string)
    requires Confirmed(auth, name, value)
    ensures FirstRedirect(auth, auth.servers(name).value, name) == None
  {
    var s := auth.servers(name).value;
    FirstRedirectIsStated(auth, s, name);
    forall i, target | 0 <= i < |s| ensures !Redirects(auth, s[i], name, target) {
      assert Holds(auth, s[i], name, value);
    }
  }

  /** A chain of at most `hops` redirects to a confirmed name gives a positive answer. */
  lemma {:induction false} WalkComplete(auth: Authority, names: seq<string>, name: string, value: string, hops: nat)
    requires Chain(auth, names, name) && |names| <= hops + 1 && Confirmed(auth, names[|names| - 1], value)
    ensures Walk(auth, name, value, hops).Ok?
    decreases hops
  {
    if |names| == 1 {
      ConfirmedIsEnd(auth, name, value);
    } else {
      assert Leads(auth, names[0], names[1]);
      var rest := names[1..];
      forall i | 0 <= i < |rest| - 1 ensures Leads(auth, rest[i], rest[i + 1]) {
        assert Leads(auth, names[i + 1], names[i + 2]);
      }
      WalkComplete(auth, rest, names[1], value, hops - 1);
    }
  }

  /**
   The check answers Ok exactly when a chain of at most four redirects, each stated by a server
   authoritative for the name before, ends at a name all of whose servers return the value.
   */
  lemma {:induction false} ProbeMeaning(auth: Authority, record: DnsRecord)
    ensures Walk(auth, record.fqdn, record.value, MAX_CNAME_HOPS).Ok? <==>
      exists names :: Chain(auth, names, record.fqdn) && |names| <= 5 && Confirmed(auth, names[|names| - 1], record.value)
  {
    if Walk(auth, record.fqdn, record.value, MAX_CNAME_HOPS).Ok? {
      WalkSound(auth, record.fqdn, record.value, MAX_CNAME_HOPS);
    }
    if exists names :: Chain(auth, names, record.fqdn) && |names| <= MAX_CNAME_HOPS + 1
                       && Confirmed(auth, names[|names| - 1], record.value) {
      var names :| Chain(auth, names, record.fqdn) && |names| <= MAX_CNAME_HOPS + 1
                   && Confirmed(auth, names[|names| - 1], record.value);
      WalkComplete(auth, names, record.fqdn, record.value, MAX_CNAME_HOPS);
    }
  }

  /** Every link of a chain is stated by a server authoritative for its name. */
  lemma ChainIsStated(auth: Authority, names: seq<string>, start: string, i: nat)
    requires Chain(auth, names, start) && i < |names| - 1
    ensures auth.servers(names[i]).Ok?
    ensures exists k ::
      0 <= k < |auth.servers(names[i]).value| && Redirects(auth, auth.servers(names[i]).value[k], names[i], names[i + 1])
  {
    assert Leads(auth, names[i], names[i + 1]);
    FirstRedirectIsStated(auth, auth.servers(names[i]).value, names[i]);
  }

  // ----- the check itself -----

  /** Asks the servers of one name in turn, stopping at the first that redirects. */
  method AskServers(auth: Authority, servers: seq<Server>, name: string, value: string)
    returns (redirect: Option<string>, lacking: seq<Server>)
    ensures redirect == FirstRedirect(auth, servers, name)
    ensures redirect.None? ==> (lacking == [] <==> forall i :: 0 <= i < |servers| ==> Holds(auth, servers[i], name, value))
  {
    redirect, lacking := None, [];
    for i := 0 to |servers|
      invariant FirstRedirect(auth, servers, name) == FirstRedirect(auth, servers[i..], name)
      invariant lacking == [] <==> forall j :: 0 <= j < i ==> Holds(auth, servers[j], name, value)
    {
      assert servers[i..][0] == servers[i] && servers[i..][1..] == servers[i + 1..];
      var answer := auth.txt(servers[i], name);
      if answer.Ok? && value in answer.value.values {
      } else if answer.Ok? && answer.value.values == [] && answer.value.cname.Some? {
        return answer.value.cname, lacking;
      } else {
        lacking := lacking + [servers[i]];
      }
    }
  }

  /** Computes `Walk` with two loops. */
  method Probe(auth: Authority, record: DnsRecord) returns (r: Result<(), AcmeError>)
    ensures r == Walk(auth, record.fqdn, record.value, MAX_CNAME_HOPS)
    ensures r.Ok? <==>
      exists names :: Chain(auth, names, record.fqdn) && |names| <= 5 && Confirmed(auth, names[|names| - 1], record.value)
  {
    ProbeMeaning(auth, record);
    var name := record.fqdn;
    for hop := 0 to MAX_CNAME_HOPS + 1
      invariant hop <= MAX_CNAME_HOPS ==>
        Walk(auth, name, record.value, MAX_CNAME_HOPS - hop) == Walk(auth, record.fqdn, record.value, MAX_CNAME_HOPS)
      invariant hop > MAX_CNAME_HOPS ==> Walk(auth, record.fqdn, record.value, MAX_CNAME_HOPS) == Err(Config(TOO_MANY_HOPS))
    {
      var servers := auth.servers(name);
      if servers.Err? {
        return Err(servers.error);
      }
      if servers.value == [] {
        return Err(NotPropagated(name));
      }
      var redirect, lacking := AskServers(auth, servers.value, name, record.value);
      if redirect.Some? {
        name := redirect.value;
        continue;
      }
      return if lacking == [] then Ok(()) else Err(NotPropagated(name));
    }
    return Err(Config(TOO_MANY_HOPS));
  }
}
