/** Trusted-subnet filter: a parser for comma-separated lists and a nested membership loop.
    Addresses, prefixes and their library are parameters. */
module Filter {
  import opened Sequences

  // ---------------------------------------------------------------- lists

  /** strings.Split(s, ","). */
  function Split(s: string): (r: seq<string>)
    ensures |r| >= 1
    ensures forall i :: 0 <= i < |r| ==> ',' !in r[i]
  {
    if s == "" then [""]
    else
      var rest := Split(s[1..]);
      if s[0] == ',' then [""] + rest else [[s[0]] + rest[0]] + rest[1..]
  }

  function Join(items: seq<string>): string {
    if items == [] then "" else if |items| == 1 then items[0] else items[0] + "," + Join(items[1..])
  }

  /** strings.TrimLeft(s, " "). */
  function TrimLeft(s: string): (r: string)
    ensures r != "" ==> r[0] != ' '
  {
    if s != "" && s[0] == ' ' then TrimLeft(s[1..]) else s
  }

  /** Every item of the list parses. */
  ghost predicate Parses<T>(s: string, parse: string -> Option<T>) {
    forall i :: 0 <= i < |Split(s)| ==> parse(TrimLeft(Split(s)[i])).Some?
  }

  /** None is the error. */
  method ParseSliceFromString<T>(s: string, parse: string -> Option<T>) returns (r: Option<seq<T>>)
    ensures s == "" ==> r == Some([])
    ensures s != "" ==> (r.Some? <==> Parses(s, parse))
    ensures s != "" && r.Some? ==>
      |r.value| == |Split(s)| && forall i :: 0 <= i < |Split(s)| ==> parse(TrimLeft(Split(s)[i])) == Some(r.value[i])
  {
    if s == "" {
      return Some([]);
    }
    var entitiesS := Split(s);
    var entities: seq<T> := [];
    for i := 0 to |entitiesS|
      invariant |entities| == i
      invariant forall j :: 0 <= j < i ==> parse(TrimLeft(entitiesS[j])) == Some(entities[j])
    {
      var entity := parse(TrimLeft(entitiesS[i]));
      if entity.None? {
        return None;
      }
      entities := entities + [entity.value];
    }
    return Some(entities);
  }

  /** Splitting undoes joining, for any items without commas. */
  lemma {:induction false} SplitJoin(items: seq<string>)
    requires |items| >= 1 && forall i :: 0 <= i < |items| ==> ',' !in items[i]
    ensures Split(Join(items)) == items
    decreases |items|, |items[0]|
  {
    var s := Join(items);
    if items[0] == "" {
      if |items| > 1 {
        assert s == "," + Join(items[1..]);
        assert s[1..] == Join(items[1..]);
        SplitJoin(items[1..]);
      }
    } else {
      var fewer := [items[0][1..]] + items[1..];
      assert fewer[1..] == items[1..];
      assert items[0] == [items[0][0]] + items[0][1..];
      assert s[1..] == Join(fewer) && s[0] == items[0][0];
      SplitJoin(fewer);
      assert items == [items[0]] + items[1..];
    }
  }

  /** ... and the other way round, so that the items of a string are determined. */
  lemma {:induction false} JoinSplit(s: string)
    ensures Join(Split(s)) == s
  {
    if s != "" {
      var rest := Split(s[1..]);
      JoinSplit(s[1..]);
      if s[0] == ',' {
        assert ([""] + rest)[1..] == rest;
        assert Join([""] + rest) == "" + "," + Join(rest);
      } else {
        var items := [[s[0]] + rest[0]] + rest[1..];
        assert items[1..] == rest[1..];
        assert Join(items) == [s[0]] + Join(rest);
      }
    }
  }

  function Spaces(n: nat): string { if n == 0 then "" else " " + Spaces(n - 1) }

  lemma {:induction false} TrimSpaces(n: nat, text: string)
    requires text != "" && text[0] != ' '
    ensures TrimLeft(Spaces(n) + text) == text
    ensures ',' !in text ==> ',' !in Spaces(n) + text
  {
    if n > 0 {
      TrimSpaces(n - 1, text);
      assert Spaces(n) + text == " " + (Spaces(n - 1) + text);
    } else {
      assert Spaces(0) + text == text;
    }
  }

  /** What is cut off is spaces, and all there are in front. */
  lemma {:induction false} TrimExactly(s: string) returns (n: nat)
    ensures s == Spaces(n) + TrimLeft(s)
    ensures TrimLeft(s) != "" ==> TrimLeft(s)[0] != ' '
  {
    n := 0;
    if s != "" && s[0] == ' ' {
      var m := TrimExactly(s[1..]);
      n := m + 1;
      assert s == " " + s[1..];
    }
  }

  /** The items printed with the given numbers of leading spaces. */
  function Padded<T>(xs: seq<T>, print_: T -> string, pads: seq<nat>): seq<string>
    requires |pads| == |xs|
  {
    seq(|xs|, i requires 0 <= i < |xs| => Spaces(pads[i]) + print_(xs[i]))
  }

  /** What a printer must do for its texts to be list items. */
  ghost predicate Printable<T>(x: T, print_: T -> string, parse: string -> Option<T>) {
    print_(x) != "" && print_(x)[0] != ' ' && ',' !in print_(x) && parse(print_(x)) == Some(x)
  }

  lemma PaddedSplits<T>(xs: seq<T>, print_: T -> string, parse: string -> Option<T>, pads: seq<nat>)
    requires |pads| == |xs| && |xs| > 0
    requires forall i :: 0 <= i < |xs| ==> Printable(xs[i], print_, parse)
    ensures var s := Join(Padded(xs, print_, pads));
      && s != "" && |Split(s)| == |xs|
      && forall i :: 0 <= i < |xs| ==> parse(TrimLeft(Split(s)[i])) == Some(xs[i])
  {
    var items := Padded(xs, print_, pads);
    forall i | 0 <= i < |xs| ensures ',' !in items[i] && TrimLeft(items[i]) == print_(xs[i]) && items[i] != "" {
      TrimSpaces(pads[i], print_(xs[i]));
    }
    SplitJoin(items);
  }

  /** Parsing a joined list, with any leading spaces for each item, gives the list back. */
  method PrintThenParse<T>(xs: seq<T>, print_: T -> string, parse: string -> Option<T>, pads: seq<nat>)
    returns (r: Option<seq<T>>)
    requires |pads| == |xs|
    requires forall i :: 0 <= i < |xs| ==> Printable(xs[i], print_, parse)
    ensures r == Some(xs)
  {
    var s := Join(Padded(xs, print_, pads));
    r := ParseSliceFromString(s, parse);
    if xs == [] {
      assert Padded(xs, print_, pads) == [];
    } else {
      PaddedSplits(xs, print_, parse, pads);
      assert Parses(s, parse);
      assert |r.value| == |xs|;
      forall i | 0 <= i < |xs| ensures r.value[i] == xs[i] {
        assert parse(TrimLeft(Split(s)[i])) == Some(r.value[i]);
      }
      assert r.value == xs;
    }
  }

  // ---------------------------------------------------------------- subnets

  /** The address library: parsing, and membership of an address in a prefix. */
  datatype Net<!P, !A> = Net(
    parsePrefix: string -> Option<P>,
    parseAddr: string -> Option<A>,
    parseAddrPort: string -> Option<A>,
    contains: (P, A) -> bool)

  datatype Filter<!P, !A> = Filter(net: Net<P, A>, subnets: seq<P>, trustXFF: bool, trustXRealIP: bool) {

    ghost predicate Trusted(addr: A) {
      exists j :: 0 <= j < |subnets| && net.contains(subnets[j], addr)
    }

    lemma TrustedExactly(addr: A)
      ensures Trusted(addr) <==> exists p :: p in subnets && net.contains(p, addr)
    {
      if j :| 0 <= j < |subnets| && net.contains(subnets[j], addr) {
        assert subnets[j] in subnets;
      }
    }

    /** The text is an address in a trusted subnet. */
    ghost predicate TrustedText(text: string, parse: string -> Option<A>) {
      text != "" && parse(text).Some? && Trusted(parse(text).value)
    }

    /** The text is a list of such addresses, and not empty. */
    ghost predicate TrustedList(text: string) {
      text != "" && forall i :: 0 <= i < |Split(text)| ==>
        net.parseAddr(TrimLeft(Split(text)[i])).Some? && Trusted(net.parseAddr(TrimLeft(Split(text)[i])).value)
    }

    method CheckIPList(ipList: string) returns (ok: bool)
      ensures ok <==> TrustedList(ipList)
      ensures ipList == "" ==> !ok
      ensures ok ==> forall item :: item in Split(ipList) ==>
        net.parseAddr(TrimLeft(item)).Some? &&
        exists p :: p in subnets && net.contains(p, net.parseAddr(TrimLeft(item)).value)
    {
      var parsed := ParseSliceFromString(ipList, net.parseAddr);
      if parsed.None? {
        return false;
      }
      var addrs := parsed.value;
      if |addrs| == 0 {
        return false;
      }
      label Loop:
      for i := 0 to |addrs|
        invariant forall k :: 0 <= k < i ==> Trusted(addrs[k])
      {
        for j := 0 to |subnets|
          invariant forall k :: 0 <= k < j ==> !net.contains(subnets[k], addrs[i])
        {
          if net.contains(subnets[j], addrs[i]) {
            continue Loop;
          }
        }
        assert !Trusted(net.parseAddr(TrimLeft(Split(ipList)[i])).value);
        return false;
      }
      return true;
    }

    method CheckAddr(text: string, parse: string -> Option<A>) returns (ok: bool)
      ensures ok <==> TrustedText(text, parse)
      ensures ok <==> text != "" && parse(text).Some? && exists p :: p in subnets && net.contains(p, parse(text).value)
    {
      if text == "" {
        return false;
      }
      var addr := parse(text);
      if addr.None? {
        return false;
      }
      for i := 0 to |subnets|
        invariant forall k :: 0 <= k < i ==> !net.contains(subnets[k], addr.value)
      {
        if net.contains(subnets[i], addr.value) {
          return true;
        }
      }
      return false;
    }

    method CheckRequestParams(remoteAddr: string, xRealIP: string, xForwardedFor: string) returns (ok: bool)
      ensures ok <==>
        TrustedText(remoteAddr, net.parseAddrPort) ||
        (trustXRealIP && TrustedText(xRealIP, net.parseAddr)) ||
        (trustXFF && TrustedList(xForwardedFor))
      ensures subnets == [] ==> !ok
    {
      ok := CheckAddr(remoteAddr, net.parseAddrPort);
      if ok {
        return true;
      }
      if trustXRealIP {
        ok := CheckAddr(xRealIP, net.parseAddr);
        if ok {
          return true;
        }
      }
      if trustXFF {
        ok := CheckIPList(xForwardedFor);
        if ok {
          assert Trusted(net.parseAddr(TrimLeft(Split(xForwardedFor)[0])).value);
          return true;
        }
      }
      return false;
    }

    /** A printed chain of addresses is trusted exactly when it is not empty and every address
        lies in some trusted subnet. */
    lemma ChainTrustedExactly(addrs: seq<A>, print_: A -> string, pads: seq<nat>)
      requires |pads| == |addrs|
      requires forall i :: 0 <= i < |addrs| ==> Printable(addrs[i], print_, net.parseAddr)
      ensures TrustedList(Join(Padded(addrs, print_, pads))) <==>
        addrs != [] && forall i :: 0 <= i < |addrs| ==> Trusted(addrs[i])
    {
      if addrs != [] {
        PaddedSplits(addrs, print_, net.parseAddr, pads);
        var s := Join(Padded(addrs, print_, pads));
        if TrustedList(s) {
          forall i | 0 <= i < |addrs| ensures Trusted(addrs[i]) {
            assert net.parseAddr(TrimLeft(Split(s)[i])) == Some(addrs[i]);
          }
        }
      }
    }
  }

  /** New fails exactly when the configured list is not empty and some item is no prefix. */
  method NewFilter<P, A>(net: Net<P, A>, subnets: string, trustXFF: bool, trustXRealIP: bool)
    returns (r: Option<Filter<P, A>>)
    ensures r.Some? <==> subnets == "" || Parses(subnets, net.parsePrefix)
    ensures r.Some? ==> r.value.net == net && r.value.trustXFF == trustXFF && r.value.trustXRealIP == trustXRealIP
    ensures r.Some? && subnets == "" ==> r.value.subnets == []
    ensures r.Some? && subnets != "" ==> |r.value.subnets| == |Split(subnets)|
    ensures r.Some? && subnets != "" ==> forall i :: 0 <= i < |Split(subnets)| ==>
      net.parsePrefix(TrimLeft(Split(subnets)[i])) == Some(r.value.subnets[i])
  {
    var prefixes := ParseSliceFromString(subnets, net.parsePrefix);
    match prefixes
    case None => return None;
    case Some(ps) => return Some(Filter(net, ps, trustXFF, trustXRealIP));
  }
}
