/** Init gives the VM's network links the names they have in the container,
    by way of temporary names, since the kernel refuses a name in use. */
module Network {
  import opened Basics
  import opened Decimal

  datatype Network = Network(name: string, mac: string)

  const NO_NETWORK := Network("", "")
  const LO := "lo"
  const TMP := "tmp-"

  /** fmt.Sprintf("tmp-%02d", i) */
  function TmpName(i: nat): string {
    TMP + (if i < 10 then "0" else "") + Itoa(i)
  }

  lemma TmpNameInjective(i: nat, j: nat)
    ensures TmpName(i) == TmpName(j) ==> i == j
  {
    var pi, pj := if i < 10 then "0" else "", if j < 10 then "0" else "";
    assert TmpName(i)[|TMP|..] == pi + Itoa(i) && TmpName(j)[|TMP|..] == pj + Itoa(j);
    if i < 10 <==> j < 10 {
      assert (pi + Itoa(i))[|pi|..] == Itoa(i) && (pj + Itoa(j))[|pj|..] == Itoa(j);
      if Itoa(i) == Itoa(j) {
        ItoaInjective(i, j);
      }
    } else {
      LeadingDigit(if i < 10 then j else i);
      assert (pi + Itoa(i))[0] != (pj + Itoa(j))[0];
    }
  }

  /** No number from ten on is printed with a leading zero. */
  lemma {:induction false} LeadingDigit(n: nat)
    requires n > 0
    ensures Itoa(n)[0] != '0'
  {
    if n >= 10 {
      LeadingDigit(n / 10);
    } else {
    }
  }

  /** The last network with this address, as the inner loop finds it. */
  function LastMatch(networks: seq<Network>, mac: string): Network {
    if networks == [] then NO_NETWORK
    else
      var last := networks[|networks| - 1];
      if last.mac == mac then last else LastMatch(networks[..|networks| - 1], mac)
  }

  /** It is the last one: no later network has the address; without any, there is no name. */
  lemma {:induction false} LastMatchIsLast(networks: seq<Network>, mac: string) returns (k: int)
    ensures -1 <= k < |networks|
    ensures k >= 0 ==> networks[k].mac == mac && LastMatch(networks, mac) == networks[k]
    ensures k < 0 ==> LastMatch(networks, mac).name == ""
    ensures forall j :: k < j < |networks| ==> networks[j].mac != mac
  {
    if networks == [] {
      k := -1;
    } else if networks[|networks| - 1].mac == mac {
      k := |networks| - 1;
    } else {
      k := LastMatchIsLast(networks[..|networks| - 1], mac);
    }
  }

  /** The names as the program prints them. */
  lemma TmpNameText(i: nat)
    ensures i < 10 ==> TmpName(i) == "tmp-0" + ["0123456789"[i]]
    ensures 10 <= i < 100 ==> TmpName(i) == "tmp-" + ["0123456789"[i / 10]] + ["0123456789"[i % 10]]
    ensures LO == "lo"
  {
    ItoaText(i);
    if 10 <= i < 100 {
      ItoaText(i / 10);
    }
    assert TMP + "0" == "tmp-0" && TMP + "" == TMP;
  }

  /** No link but i has this name. */
  predicate Free(names: seq<string>, i: nat, name: string) {
    forall j :: 0 <= j < |names| && j != i ==> names[j] != name
  }

  /** The kernel's links, by position in the list netlink returns. */
  class Kernel {
    var names: seq<string>

    constructor (names: seq<string>)
      ensures this.names == names
    {
      this.names := names;
    }

    /** netlink.LinkSetName; a link may be given the name it has. */
    method SetName(i: nat, name: string) returns (ok: bool)
      requires i < |names| && Distinct(names)
      modifies this
      ensures ok <==> Free(old(names), i, name)
      ensures names == if ok then old(names)[i := name] else old(names)
      ensures Distinct(names)
    {
      ok := Free(names, i, name);
      if ok {
        names := names[i := name];
      }
    }
  }

  // ----- when the renaming goes through

  function NewName(links: seq<string>, macs: seq<string>, networks: seq<Network>, i: nat): string
    requires i < |links| == |macs|
  {
    if links[i] == LO then LO else LastMatch(networks, macs[i]).name
  }

  /** No link still has the temporary name of an earlier one. */
  ghost predicate FirstPhaseOk(links: seq<string>) {
    forall i, j :: 0 <= i < j < |links| && links[i] != LO ==> links[j] != TmpName(i)
  }

  /** New names are distinct, and none is a temporary name not yet given up. */
  ghost predicate SecondPhaseOk(links: seq<string>, macs: seq<string>, networks: seq<Network>)
    requires |links| == |macs|
  {
    && (forall i, j :: 0 <= i < j < |links| ==>
          NewName(links, macs, networks, i) != NewName(links, macs, networks, j))
    && (forall i, j :: 0 <= i < j < |links| && links[i] != LO && links[j] != LO ==>
          NewName(links, macs, networks, i) != TmpName(j))
  }

  /** The exact condition for setupNetwork to get through its renames. */
  ghost predicate Renamable(links: seq<string>, macs: seq<string>, networks: seq<Network>)
    requires |links| == |macs|
  {
    && |networks| == |links| - 1
    && (forall i :: 0 <= i < |links| ==> NewName(links, macs, networks, i) != "")
    && (|networks| > 1 ==> FirstPhaseOk(links) && SecondPhaseOk(links, macs, networks))
  }

  /** The names after the first i links were given temporary ones. */
  ghost function Parked(links: seq<string>, i: nat): (r: seq<string>)
    requires i <= |links|
    ensures |r| == |links|
  {
    seq(|links|, k requires 0 <= k < |links| => if k < i && links[k] != LO then TmpName(k) else links[k])
  }

  /** The names after the first i links were given their new ones. */
  ghost function Renamed(links: seq<string>, macs: seq<string>, networks: seq<Network>, i: nat): (r: seq<string>)
    requires i <= |links| == |macs|
    ensures |r| == |links|
  {
    if |networks| <= 1 then links
    else
      seq(|links|, k requires 0 <= k < |links| =>
        if k < i then NewName(links, macs, networks, k) else Parked(links, |links|)[k])
  }

  // ----- the program

  method FindNetwork(networks: seq<Network>, mac: string) returns (nw: Network)
    ensures nw == LastMatch(networks, mac)
  {
    nw := NO_NETWORK;
    for i := 0 to |networks|
      invariant nw == LastMatch(networks[..i], mac)
    {
      assert networks[..i + 1][..i] == networks[..i];
      if networks[i].mac == mac {
        nw := networks[i];
      }
    }
    assert networks[..|networks|] == networks;
  }

  /** First phase: every rename of a link finds its temporary name free. */
  ghost predicate ParkOk(links: seq<string>, i: nat)
    requires i < |links|
  {
    links[i] != LO ==> Free(Parked(links, i), i, TmpName(i))
  }

  method ParkLinks(kernel: Kernel) returns (ok: bool)
    requires Distinct(kernel.names)
    modifies kernel
    ensures Distinct(kernel.names)
    ensures ok <==> FirstPhaseOk(old(kernel.names))
    ensures ok ==> kernel.names == Parked(old(kernel.names), |old(kernel.names)|)
  {
    var links := kernel.names;
    assert Parked(links, 0) == links;
    for i := 0 to |links|
      invariant Distinct(kernel.names) && kernel.names == Parked(links, i)
      invariant forall a :: 0 <= a < i ==> ParkOk(links, a)
    {
      if links[i] == LO {
        continue;
      }
      ok := kernel.SetName(i, TmpName(i));
      if !ok {
        assert !ParkOk(links, i);
        FirstPhaseIff(links);
        return;
      }
    }
    FirstPhaseIff(links);
    ok := true;
  }

  lemma ParkFree(links: seq<string>, i: nat)
    requires i < |links|
    ensures Free(Parked(links, i), i, TmpName(i)) <==> forall j :: i < j < |links| ==> links[j] != TmpName(i)
  {
    var p := Parked(links, i);
    assert TmpName(i)[0] == 't' && LO[0] == 'l';
    forall j | 0 <= j < i
      ensures p[j] != TmpName(i)
    {
      TmpNameInjective(j, i);
    }
    assert forall j :: i < j < |links| ==> p[j] == links[j];
  }

  lemma FirstPhaseIff(links: seq<string>)
    ensures FirstPhaseOk(links) <==> forall i :: 0 <= i < |links| ==> ParkOk(links, i)
  {
    forall i | 0 <= i < |links|
      ensures ParkOk(links, i) <==> forall j :: i < j < |links| && links[i] != LO ==> links[j] != TmpName(i)
    {
      ParkFree(links, i);
    }
    if forall i :: 0 <= i < |links| ==> ParkOk(links, i) {
      forall i, j | 0 <= i < j < |links| && links[i] != LO
        ensures links[j] != TmpName(i)
      {
        assert ParkOk(links, i);
      }
    }
  }

  /** Second phase: every rename of a link finds its new name free. */
  ghost predicate NameOk(links: seq<string>, macs: seq<string>, networks: seq<Network>, i: nat)
    requires i < |links| == |macs|
  {
    links[i] != LO ==> Free(Renamed(links, macs, networks, i), i, NewName(links, macs, networks, i))
  }

  lemma SecondPhaseIff(links: seq<string>, macs: seq<string>, networks: seq<Network>)
    requires |links| == |macs| && |networks| > 1 && Distinct(links)
    ensures SecondPhaseOk(links, macs, networks)
      <==> forall i :: 0 <= i < |links| ==> NameOk(links, macs, networks, i)
  {
    if SecondPhaseOk(links, macs, networks) {
      forall i | 0 <= i < |links|
        ensures NameOk(links, macs, networks, i)
      {
        SecondPhaseFree(links, macs, networks, i);
      }
    }
    if forall i :: 0 <= i < |links| ==> NameOk(links, macs, networks, i) {
      forall i, j | 0 <= i < j < |links|
        ensures NewName(links, macs, networks, i) != NewName(links, macs, networks, j)
        ensures links[i] != LO && links[j] != LO ==> NewName(links, macs, networks, i) != TmpName(j)
      {
        FreeNames(links, macs, networks, i, j);
      }
    }
  }

  lemma SecondPhaseFree(links: seq<string>, macs: seq<string>, networks: seq<Network>, i: nat)
    requires i < |links| == |macs| && |networks| > 1 && SecondPhaseOk(links, macs, networks)
    ensures NameOk(links, macs, networks, i)
  {
    var r := Renamed(links, macs, networks, i);
    forall j | 0 <= j < |links| && j != i && links[i] != LO
      ensures r[j] != NewName(links, macs, networks, i)
    {
      if j > i && links[j] == LO {
        assert NewName(links, macs, networks, j) == LO == r[j];
      }
    }
  }

  lemma FreeNames(links: seq<string>, macs: seq<string>, networks: seq<Network>, i: nat, j: nat)
    requires i < j < |links| == |macs| && |networks| > 1 && Distinct(links)
    requires NameOk(links, macs, networks, i) && NameOk(links, macs, networks, j)
    ensures NewName(links, macs, networks, i) != NewName(links, macs, networks, j)
    ensures links[i] != LO && links[j] != LO ==> NewName(links, macs, networks, i) != TmpName(j)
  {
    var r, q := Renamed(links, macs, networks, i), Renamed(links, macs, networks, j);
    assert q[i] == NewName(links, macs, networks, i);
    assert r[j] == if links[j] == LO then LO else TmpName(j);
  }

  method SetupNetwork(kernel: Kernel, macs: seq<string>, networks: seq<Network>) returns (ok: bool)
    requires |kernel.names| == |macs| && Distinct(kernel.names)
    modifies kernel
    ensures Distinct(kernel.names)
    ensures ok <==> Renamable(old(kernel.names), macs, networks)
    ensures ok ==> kernel.names == Renamed(old(kernel.names), macs, networks, |macs|)
  {
    var links := kernel.names;
    if |networks| != |links| - 1 {
      return false;
    }
    if |networks| > 1 {
      ok := ParkLinks(kernel);
      if !ok {
        return;
      }
      SecondPhaseIff(links, macs, networks);
      assert Renamed(links, macs, networks, 0) == Parked(links, |links|);
    }
    for i := 0 to |links|
      invariant Distinct(kernel.names) && kernel.names == Renamed(links, macs, networks, i)
      invariant forall a :: 0 <= a < i ==> NewName(links, macs, networks, a) != ""
      invariant |networks| > 1 ==> forall a :: 0 <= a < i ==> NameOk(links, macs, networks, a)
    {
      RenameStep(links, macs, networks, i);
      if links[i] == LO {
        continue;
      }
      var nw := FindNetwork(networks, macs[i]);
      if nw.name == "" {
        assert NewName(links, macs, networks, i) == "";
        return false;
      }
      if |networks| > 1 {
        ok := kernel.SetName(i, nw.name);
        if !ok {
          assert !NameOk(links, macs, networks, i);
          return;
        }
      }
    }
    ok := true;
  }

  lemma RenameStep(links: seq<string>, macs: seq<string>, networks: seq<Network>, i: nat)
    requires i < |links| == |macs|
    ensures Renamed(links, macs, networks, i + 1) ==
      if links[i] == LO || |networks| <= 1 then Renamed(links, macs, networks, i)
      else Renamed(links, macs, networks, i)[i := NewName(links, macs, networks, i)]
  {
    if |networks| > 1 {
      var r, q := Renamed(links, macs, networks, i), Renamed(links, macs, networks, i + 1);
      assert q[i] == NewName(links, macs, networks, i);
      assert links[i] == LO ==> r[i] == LO == q[i];
      assert forall k :: 0 <= k < |links| && k != i ==> q[k] == r[k];
      assert q == r[i := q[i]];
      assert r[i := r[i]] == r;
    }
  }

  // ----- what users rely on

  ghost predicate IsTmp(name: string) {
    TMP <= name
  }

  /** The configuration names every link of the VM but lo, by distinct
      addresses and distinct sensible names. */
  ghost predicate Configured(links: seq<string>, macs: seq<string>, networks: seq<Network>) {
    && |links| == |macs| == |networks| + 1
    && Distinct(links) && LO in links
    && (forall i :: 0 <= i < |links| && links[i] != LO ==> exists n :: n in networks && n.mac == macs[i])
    && (forall i, j :: 0 <= i < j < |links| && links[i] != LO && links[j] != LO ==> macs[i] != macs[j])
    && (forall a, b :: 0 <= a < b < |networks| ==>
          networks[a].mac != networks[b].mac && networks[a].name != networks[b].name)
    && (forall n :: n in networks ==> n.name != "" && n.name != LO && !IsTmp(n.name))
    && (forall i :: 0 <= i < |links| ==> !IsTmp(links[i]))
  }

  lemma {:induction false} LastMatchFinds(networks: seq<Network>, mac: string, n: Network)
    requires n in networks && n.mac == mac
    ensures LastMatch(networks, mac) in networks && LastMatch(networks, mac).mac == mac
  {
    var last := networks[|networks| - 1];
    if last.mac != mac {
      assert networks == networks[..|networks| - 1] + [last];
      LastMatchFinds(networks[..|networks| - 1], mac, n);
    }
  }

  lemma ConfiguredMatch(links: seq<string>, macs: seq<string>, networks: seq<Network>, i: nat)
    requires Configured(links, macs, networks) && i < |links| && links[i] != LO
    ensures var nw := LastMatch(networks, macs[i]);
      nw in networks && nw.mac == macs[i] && NewName(links, macs, networks, i) == nw.name
  {
    var n :| n in networks && n.mac == macs[i];
    LastMatchFinds(networks, macs[i], n);
  }

  /** With such a configuration no rename meets a name in use, whatever the
      order of the links. */
  lemma ConfiguredIsRenamable(links: seq<string>, macs: seq<string>, networks: seq<Network>)
    requires Configured(links, macs, networks)
    ensures Renamable(links, macs, networks)
  {
    forall i | 0 <= i < |links|
      ensures NewName(links, macs, networks, i) != "" && !IsTmp(NewName(links, macs, networks, i))
    {
      if links[i] != LO {
        ConfiguredMatch(links, macs, networks, i);
      }
    }
    forall i, j | 0 <= i < j < |links|
      ensures NewName(links, macs, networks, i) != NewName(links, macs, networks, j)
    {
      NewNamesDiffer(links, macs, networks, i, j);
    }
    assert forall i :: IsTmp(TmpName(i));
  }

  lemma NewNamesDiffer(links: seq<string>, macs: seq<string>, networks: seq<Network>, i: nat, j: nat)
    requires Configured(links, macs, networks) && i < j < |links|
    ensures NewName(links, macs, networks, i) != NewName(links, macs, networks, j)
  {
    if links[i] != LO {
      ConfiguredMatch(links, macs, networks, i);
    }
    if links[j] != LO {
      ConfiguredMatch(links, macs, networks, j);
    }
  }

  /** Afterwards the link with the address of a network has the name of that
      network, if there are several networks; a single one is never renamed,
      so it must have had that name before. */
  lemma EveryAddressGetsItsName(links: seq<string>, macs: seq<string>, networks: seq<Network>, i: nat, n: Network)
    requires Configured(links, macs, networks)
    requires i < |links| && links[i] != LO && n in networks && n.mac == macs[i]
    ensures Renamed(links, macs, networks, |links|)[i] == n.name <==> |networks| > 1 || links[i] == n.name
  {
    ConfiguredMatch(links, macs, networks, i);
  }

  /** A container with one network called eth1: setupNetwork succeeds and the
      link is still called eth0. */
  lemma SingleNetworkKeepsKernelName(mac: string)
    ensures var links, macs, networks := ["lo", "eth0"], ["", mac], [Network("eth1", mac)];
      && Configured(links, macs, networks)
      && Renamable(links, macs, networks)
      && Renamed(links, macs, networks, 2)[1] == "eth0" != networks[0].name
  {
    var links, macs, networks := [LO, "eth0"], ["", mac], [Network("eth1", mac)];
    assert networks[0] in networks && LO == links[0];
    assert "eth0"[0] == 'e' && "eth1"[0] == 'e' && LO[0] == 'l' && TMP[0] == 't';
    assert "eth0"[3] != "eth1"[3];
    assert Configured(links, macs, networks);
    ConfiguredIsRenamable(links, macs, networks);
  }

  // ----- success means a bijection

  lemma {:induction false} LastMatchOrigin(networks: seq<Network>, mac: string)
    ensures LastMatch(networks, mac).name != "" ==> LastMatch(networks, mac) in networks && LastMatch(networks, mac).mac == mac
  {
    if networks != [] && networks[|networks| - 1].mac != mac {
      LastMatchOrigin(networks[..|networks| - 1], mac);
    }
  }

  /** Distinct members of a sequence, as many as it is long, are all of it. */
  lemma {:induction false} AllAreHit<T>(xs: seq<T>, hits: set<T>)
    requires forall x :: x in hits ==> x in xs
    requires |hits| >= |xs|
    ensures forall x :: x in xs ==> x in hits
  {
    if xs != [] {
      var x, rest := xs[0], xs[1..];
      assert forall y :: y in xs ==> y == x || y in rest;
      if x in hits {
        AllAreHit(rest, hits - {x});
      } else {
        AllAreHitBound(rest, hits);
      }
    }
  }

  lemma {:induction false} AllAreHitBound<T>(xs: seq<T>, hits: set<T>)
    requires forall x :: x in hits ==> x in xs
    ensures |hits| <= |xs|
  {
    if xs == [] {
      assert hits == {};
    } else {
      assert forall y :: y in xs ==> y == xs[0] || y in xs[1..];
      AllAreHitBound(xs[1..], hits - {xs[0]});
    }
  }

  /** The networks chosen for the first k links. */
  ghost function Chosen(links: seq<string>, macs: seq<string>, networks: seq<Network>, k: nat): set<Network>
    requires k <= |links| == |macs|
  {
    set i | 0 <= i < k && links[i] != LO :: LastMatch(networks, macs[i])
  }

  lemma ChosenStep(links: seq<string>, macs: seq<string>, networks: seq<Network>, k: nat)
    requires 0 < k <= |links| == |macs|
    ensures Chosen(links, macs, networks, k) == Chosen(links, macs, networks, k - 1) +
      if links[k - 1] == LO then {} else {LastMatch(networks, macs[k - 1])}
  {
  }

  lemma ChosenGrows(links: seq<string>, macs: seq<string>, networks: seq<Network>, k: nat)
    requires 0 < k <= |links| == |macs| && SecondPhaseOk(links, macs, networks)
    ensures |Chosen(links, macs, networks, k)|
      == |Chosen(links, macs, networks, k - 1)| + if links[k - 1] == LO then 0 else 1
  {
    ChosenStep(links, macs, networks, k);
    forall i | 0 <= i < k - 1 && links[i] != LO && links[k - 1] != LO
      ensures LastMatch(networks, macs[i]) != LastMatch(networks, macs[k - 1])
    {
      assert NewName(links, macs, networks, i) != NewName(links, macs, networks, k - 1);
    }
  }

  /** lo is one link at most. */
  lemma {:induction false} ChosenCount(links: seq<string>, macs: seq<string>, networks: seq<Network>, k: nat)
    requires k <= |links| == |macs| && Distinct(links) && SecondPhaseOk(links, macs, networks)
    ensures |Chosen(links, macs, networks, k)| >= if LO in links[..k] then k - 1 else k
  {
    if k > 0 {
      ChosenCount(links, macs, networks, k - 1);
      ChosenGrows(links, macs, networks, k);
      assert links[..k] == links[..k - 1] + [links[k - 1]];
    }
  }

  ghost predicate Carries(links: seq<string>, macs: seq<string>, i: int, n: Network) {
    0 <= i < |links| && |links| == |macs| && links[i] != LO && macs[i] == n.mac
  }

  /** Some link has the address of this network. */
  ghost predicate Served(links: seq<string>, macs: seq<string>, n: Network) {
    exists i :: Carries(links, macs, i, n)
  }

  /** The link is lo or has the address of a network and, if it is renamed, its name. */
  ghost predicate Known(links: seq<string>, macs: seq<string>, networks: seq<Network>, i: int) {
    0 <= i < |links| && |links| == |macs| && links[i] != LO ==>
      exists n :: n in networks && Carries(links, macs, i, n) &&
        (|networks| > 1 ==> Renamed(links, macs, networks, |links|)[i] == n.name)
  }

  /** Links other than lo and networks correspond one to one. */
  ghost predicate OneToOne(links: seq<string>, macs: seq<string>, networks: seq<Network>)
    requires |links| == |macs|
  {
    && (forall n {:trigger Served(links, macs, n)} :: n in networks ==> Served(links, macs, n))
    && (forall i {:trigger Known(links, macs, networks, i)} :: Known(links, macs, networks, i))
    && (forall i, j :: 0 <= i < j < |links| && links[i] != LO && links[j] != LO ==> macs[i] != macs[j])
  }

  /** If setupNetwork succeeds, links other than lo and networks correspond one
      to one by address, and by name if there are several networks. The only
      exception is a single network in a VM without lo. */
  lemma SuccessIsBijection(links: seq<string>, macs: seq<string>, networks: seq<Network>)
    requires |links| == |macs| && Distinct(links) && Renamable(links, macs, networks)
    ensures OneToOne(links, macs, networks) <==> |networks| != 1 || LO in links
    ensures Distinct(Renamed(links, macs, networks, |links|))
  {
    forall i: int
      ensures Known(links, macs, networks, i)
    {
      LinkIsKnown(links, macs, networks, i);
    }
    if |networks| > 1 {
      ManyAreOneToOne(links, macs, networks);
    } else if |networks| == 1 {
      SingleIsOneToOne(links, macs, networks);
    }
  }

  lemma LinkIsKnown(links: seq<string>, macs: seq<string>, networks: seq<Network>, i: int)
    requires |links| == |macs| && Renamable(links, macs, networks)
    ensures Known(links, macs, networks, i)
    ensures 0 <= i < |links| && links[i] != LO ==> LastMatch(networks, macs[i]) in networks && LastMatch(networks, macs[i]).mac == macs[i]
  {
    if 0 <= i < |links| && links[i] != LO {
      assert NewName(links, macs, networks, i) != "";
      LastMatchOrigin(networks, macs[i]);
      assert Carries(links, macs, i, LastMatch(networks, macs[i]));
    }
  }

  lemma ManyAreOneToOne(links: seq<string>, macs: seq<string>, networks: seq<Network>)
    requires |links| == |macs| && Distinct(links) && |networks| > 1 && Renamable(links, macs, networks)
    ensures forall n :: n in networks ==> Served(links, macs, n)
    ensures forall i, j :: 0 <= i < j < |links| && links[i] != LO && links[j] != LO ==> macs[i] != macs[j]
  {
    var hits := Chosen(links, macs, networks, |links|);
    ChosenCount(links, macs, networks, |links|);
    forall i | 0 <= i < |links| && links[i] != LO
      ensures LastMatch(networks, macs[i]) in networks && Served(links, macs, LastMatch(networks, macs[i]))
    {
      LinkIsKnown(links, macs, networks, i);
      assert Carries(links, macs, i, LastMatch(networks, macs[i]));
    }
    AllAreHit(networks, hits);
    forall i, j | 0 <= i < j < |links| && links[i] != LO && links[j] != LO
      ensures macs[i] != macs[j]
    {
      assert NewName(links, macs, networks, i) != NewName(links, macs, networks, j);
    }
  }

  lemma SingleIsOneToOne(links: seq<string>, macs: seq<string>, networks: seq<Network>)
    requires |links| == |macs| && Distinct(links) && |networks| == 1 && Renamable(links, macs, networks)
    ensures (forall n :: n in networks ==> Served(links, macs, n))
    ensures (forall i, j :: 0 <= i < j < |links| && links[i] != LO && links[j] != LO ==> macs[i] != macs[j]) <==> LO in links
  {
    assert forall n :: n in networks ==> n == networks[0];
    var i := if links[0] == LO then 1 else 0;
    LinkIsKnown(links, macs, networks, i);
    assert Carries(links, macs, i, networks[0]);
    if LO !in links {
      LinkIsKnown(links, macs, networks, 1);
      assert links[0] in links && links[1] in links;
      assert macs[0] == macs[1];
    }
  }
}
