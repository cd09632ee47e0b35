/** The descriptors that tell connected devices apart, and the search for a nonce that makes one unique.

    `InputDeviceIdentifier` and `sha1` are not part of this model's source tree: vendor, product and nonce
    are 16-bit numbers, and the digest is a parameter of which only injectivity is ever asked. */
module DescriptorNonce {
  import opened BitSets

  const NONCES: nat := 0x1_0000

  datatype Identifier = Identifier(name: string, location: string, uniqueId: string, vendor: nat, product: nat)
  {
    predicate Fits() {
      vendor < NONCES && product < NONCES
    }
  }

  function HexDigit(n: nat): char
    requires n < 16
  {
    "0123456789abcdef"[n]
  }

  /** `%04x` of a 16-bit number. */
  function Hex4(n: nat): (s: string)
    requires n < NONCES
    ensures |s| == 4
  {
    [HexDigit(n / 4096), HexDigit(n / 256 % 16), HexDigit(n / 16 % 16), HexDigit(n % 16)]
  }

  lemma HexDigitIsInjective(m: nat, n: nat)
    requires m < 16 && n < 16 && HexDigit(m) == HexDigit(n)
    ensures m == n
  {
  }

  lemma FromDigits(n: nat)
    requires n < NONCES
    ensures n == n / 4096 * 4096 + n / 256 % 16 * 256 + n / 16 % 16 * 16 + n % 16
  {
    assert n / 256 == n / 4096 * 16 + n / 256 % 16;
    assert n / 16 == n / 256 * 16 + n / 16 % 16;
  }

  lemma Hex4IsInjective(m: nat, n: nat)
    requires m < NONCES && n < NONCES && Hex4(m) == Hex4(n)
    ensures m == n
  {
    hide HexDigit;
    var s, t := Hex4(m), Hex4(n);
    assert s[0] == t[0] && s[1] == t[1] && s[2] == t[2] && s[3] == t[3];
    HexDigitIsInjective(m / 4096, n / 4096);
    HexDigitIsInjective(m / 256 % 16, n / 256 % 16);
    HexDigitIsInjective(m / 16 % 16, n / 16 % 16);
    HexDigitIsInjective(m % 16, n % 16);
    FromDigits(m);
    FromDigits(n);
  }

  function NoncePart(id: Identifier, nonce: nat): string
    requires nonce < NONCES
  {
    if id.uniqueId != "" then "uniqueId:" + id.uniqueId
    else if nonce != 0 then "nonce:" + Hex4(nonce)
    else ""
  }

  function NamePart(id: Identifier): string {
    if id.vendor == 0 && id.product == 0 then
      if id.name != "" then "name:" + id.name
      else if id.location != "" then "location:" + id.location
      else ""
    else ""
  }

  /** The string that `generateDescriptor` hashes. */
  function RawDescriptor(id: Identifier, nonce: nat): string
    requires id.Fits() && nonce < NONCES
  {
    ":" + Hex4(id.vendor) + ":" + Hex4(id.product) + ":" + NoncePart(id, nonce) + NamePart(id)
  }

  lemma HexSpelled()
    ensures Hex4(0x46d) == "046d" && Hex4(0xc52b) == "c52b" && Hex4(0) == "0000" && Hex4(1) == "0001"
  {
  }

  /** How the string is spelled: with a unique id, with a nonce, and when nothing is known but a name or a place. */
  lemma RawDescriptorsSpelled(name: string, location: string, uniqueId: string)
    requires name != "" && location != "" && uniqueId != ""
    ensures RawDescriptor(Identifier(name, location, uniqueId, 0x46d, 0xc52b), 0) == ":" + "046d" + ":" + "c52b" + ":" + ("uniqueId:" + uniqueId) + ""
    ensures RawDescriptor(Identifier(name, location, "", 0x46d, 0xc52b), 0) == ":" + "046d" + ":" + "c52b" + ":" + "" + ""
    ensures RawDescriptor(Identifier(name, location, "", 0, 0), 1)
            == ":" + "0000" + ":" + "0000" + ":" + ("nonce:" + "0001") + ("name:" + name)
    ensures RawDescriptor(Identifier("", location, uniqueId, 0, 0), 0)
            == ":" + "0000" + ":" + "0000" + ":" + ("uniqueId:" + uniqueId) + ("location:" + location)
  {
    hide Hex4;
    HexSpelled();
  }

  ghost predicate Injective(digest: string -> string) {
    forall s, t :: digest(s) == digest(t) ==> s == t
  }

  /** A device without a unique id has a different raw descriptor for every nonce. */
  lemma NoncesDiffer(id: Identifier, m: nat, n: nat)
    requires id.Fits() && id.uniqueId == "" && m < NONCES && n < NONCES
    requires RawDescriptor(id, m) == RawDescriptor(id, n)
    ensures m == n
  {
    var prefix := ":" + Hex4(id.vendor) + ":" + Hex4(id.product) + ":";
    var p, q := NoncePart(id, m), NoncePart(id, n);
    assert RawDescriptor(id, m) == prefix + p + NamePart(id);
    assert RawDescriptor(id, n) == prefix + q + NamePart(id);
    assert |p| == |q|;
    assert p == (prefix + p + NamePart(id))[|prefix|..|prefix| + |p|];
    assert q == (prefix + q + NamePart(id))[|prefix|..|prefix| + |q|];
    if m != 0 {
      assert Hex4(m) == p[6..] && Hex4(n) == q[6..];
      Hex4IsInjective(m, n);
    }
  }

  ghost function Descriptors(id: Identifier, digest: string -> string, n: nat): set<string>
    requires id.Fits() && n <= NONCES
  {
    set k: nat | k < n :: digest(RawDescriptor(id, k))
  }

  lemma {:induction false} AsManyDescriptors(id: Identifier, digest: string -> string, n: nat)
    requires id.Fits() && id.uniqueId == "" && n <= NONCES && Injective(digest)
    ensures |Descriptors(id, digest, n)| == n
  {
    hide RawDescriptor, Hex4;
    if n > 0 {
      AsManyDescriptors(id, digest, n - 1);
      var last := digest(RawDescriptor(id, n - 1));
      forall k: nat | k < n - 1
        ensures digest(RawDescriptor(id, k)) != last
      {
        if digest(RawDescriptor(id, k)) == last {
          NoncesDiffer(id, k, n - 1);
        }
      }
      assert Descriptors(id, digest, n) == Descriptors(id, digest, n - 1) + {last};
    } else {
      assert Descriptors(id, digest, n) == {};
    }
  }

  /** By the pigeonhole principle no more nonces are taken than devices are connected. */
  lemma TakenNonces(id: Identifier, digest: string -> string, connected: seq<string>, n: nat)
    requires id.Fits() && id.uniqueId == "" && n <= NONCES && Injective(digest)
    requires forall k: nat :: k < n ==> digest(RawDescriptor(id, k)) in connected
    ensures n <= |connected|
  {
    AsManyDescriptors(id, digest, n);
    var all := set s | s in connected;
    assert Descriptors(id, digest, n) <= all;
    SubsetCount(Descriptors(id, digest, n), all);
    DistinctCount(connected);
  }

  lemma SubsetCount(s: set<string>, t: set<string>)
    requires s <= t
    ensures |s| <= |t|
  {
    assert |t - s| == |t| - |s|;
  }

  lemma {:induction false} DistinctCount(list: seq<string>)
    ensures |set s | s in list| <= |list|
    decreases |list|
  {
    if list != [] {
      DistinctCount(list[1..]);
      var rest := set s | s in list[1..];
      assert (set s | s in list) == rest + {list[0]};
    } else {
      assert (set s | s in list) == {};
    }
  }

  /** `getDeviceByDescriptorLocked`. */
  method IsConnected(connected: seq<string>, descriptor: string) returns (found: bool)
    ensures found <==> descriptor in connected
  {
    for i := 0 to |connected|
      invariant descriptor !in connected[..i]
    {
      if connected[i] == descriptor {
        return true;
      }
    }
    return false;
  }

  /** Some nonce gives a descriptor that no connected device has. */
  ghost predicate SomeFree(id: Identifier, digest: string -> string, connected: seq<string>)
    requires id.Fits()
  {
    exists k: nat :: k < NONCES && digest(RawDescriptor(id, k)) !in connected
  }

  /** Unless there are as many devices as nonces, one is free. */
  lemma FewLeaveSomeFree(id: Identifier, digest: string -> string, connected: seq<string>)
    requires id.Fits() && id.uniqueId == "" && Injective(digest) && |connected| < NONCES
    ensures SomeFree(id, digest, connected)
  {
    hide RawDescriptor, Injective;
    if !SomeFree(id, digest, connected) {
      TakenNonces(id, digest, connected, NONCES);
    }
  }

  /** `assignDescriptorLocked`; `connected` are the descriptors of the connected devices.  A device without a
      unique id gets the smallest nonce that makes its descriptor a new one, and the search for it ends exactly
      if there is one.  A device with a unique id is not made unique. */
  method AssignDescriptor(id: Identifier, digest: string -> string, connected: seq<string>) returns (nonce: nat, descriptor: string)
    requires id.Fits() && (id.uniqueId == "" ==> SomeFree(id, digest, connected))
    ensures nonce < NONCES && descriptor == digest(RawDescriptor(id, nonce))
    ensures descriptor !in connected <==> id.uniqueId == "" || digest(RawDescriptor(id, 0)) !in connected
    ensures id.uniqueId == "" ==> forall k: nat :: k < nonce ==> digest(RawDescriptor(id, k)) in connected
    ensures id.uniqueId == "" && Injective(digest) ==> nonce <= |connected|
    ensures id.uniqueId != "" ==> nonce == 0
  {
    hide RawDescriptor, Hex4, Injective;
    nonce := 0;
    descriptor := digest(RawDescriptor(id, nonce));
    if id.uniqueId == "" {
      ghost var free: nat :| free < NONCES && digest(RawDescriptor(id, free)) !in connected;
      var found := IsConnected(connected, descriptor);
      while found
        invariant nonce <= free && descriptor == digest(RawDescriptor(id, nonce))
        invariant found <==> descriptor in connected
        invariant forall k: nat :: k < nonce ==> digest(RawDescriptor(id, k)) in connected
        decreases free - nonce, found
      {
        nonce := (nonce + 1) % NONCES;
        descriptor := digest(RawDescriptor(id, nonce));
        found := IsConnected(connected, descriptor);
      }
      if Injective(digest) {
        TakenNonces(id, digest, connected, nonce);
      }
    }
  }

  // ----- the connected devices over time -----

  /** A connected device with the nonce that it was given. */
  datatype Entry = Entry(id: Identifier, nonce: nat)
  {
    predicate Fits() {
      id.Fits() && nonce < NONCES && (id.uniqueId != "" ==> nonce == 0)
    }

    function Raw(): string
      requires Fits()
    {
      RawDescriptor(id, nonce)
    }

    /** What follows vendor and product. */
    function Tail(): string
      requires Fits()
    {
      NoncePart(id, nonce) + NamePart(id)
    }
  }

  ghost predicate AllFit(connected: seq<Entry>) {
    forall i :: 0 <= i < |connected| ==> connected[i].Fits()
  }

  function DescriptorsOf(connected: seq<Entry>, digest: string -> string): (r: seq<string>)
    requires AllFit(connected)
    ensures |r| == |connected| && forall i :: 0 <= i < |connected| ==> r[i] == digest(connected[i].Raw())
  {
    seq(|connected|, i requires 0 <= i < |connected| => digest(connected[i].Raw()))
  }

  /** A device enters with the descriptor it is assigned, or a device leaves. */
  ghost predicate IsChange(digest: string -> string, before: seq<Entry>, after: seq<Entry>) {
    && AllFit(before)
    && ((exists i :: 0 <= i < |before| && after == before[..i] + before[i + 1..])
        || (exists e: Entry :: e.Fits() && after == before + [e]
              && (e.id.uniqueId == "" ==> digest(e.Raw()) !in DescriptorsOf(before, digest))))
  }

  ghost predicate IsHistory(digest: string -> string, states: seq<seq<Entry>>) {
    states != [] && states[0] == [] && forall k :: 0 <= k < |states| - 1 ==> IsChange(digest, states[k], states[k + 1])
  }

  /** The later one of two connected devices differs from the earlier one unless it brought a unique id. */
  ghost predicate Distinguished(digest: string -> string, connected: seq<Entry>) {
    && AllFit(connected)
    && forall i, j :: 0 <= i < j < |connected| && connected[j].id.uniqueId == "" ==>
         digest(connected[i].Raw()) != digest(connected[j].Raw())
  }

  lemma ChangeDistinguishes(digest: string -> string, before: seq<Entry>, after: seq<Entry>)
    requires Distinguished(digest, before) && IsChange(digest, before, after)
    ensures Distinguished(digest, after)
  {
    hide Entry.Raw, Entry.Fits;
    if !exists i :: 0 <= i < |before| && after == before[..i] + before[i + 1..] {
      assert forall i :: 0 <= i < |before| ==> digest(before[i].Raw()) == DescriptorsOf(before, digest)[i];
    }
  }

  lemma {:induction false} HistoryDistinguishes(digest: string -> string, states: seq<seq<Entry>>)
    requires IsHistory(digest, states)
    ensures Distinguished(digest, states[|states| - 1])
    decreases |states|
  {
    var n := |states| - 1;
    if n > 0 {
      HistoryDistinguishes(digest, states[..n]);
      assert IsChange(digest, states[n - 1], states[n]);
      ChangeDistinguishes(digest, states[n - 1], states[n]);
    }
  }

  /** A device enters. */
  method Enter(connected: seq<Entry>, id: Identifier, digest: string -> string) returns (after: seq<Entry>)
    requires AllFit(connected) && id.Fits() && (id.uniqueId == "" ==> SomeFree(id, digest, DescriptorsOf(connected, digest)))
    ensures |after| == |connected| + 1 && after[..|connected|] == connected && after[|connected|].id == id
    ensures IsChange(digest, connected, after)
  {
    hide RawDescriptor, SomeFree, Injective;
    var nonce, descriptor := AssignDescriptor(id, digest, DescriptorsOf(connected, digest));
    var e := Entry(id, nonce);
    assert descriptor == digest(e.Raw());
    after := connected + [e];
  }

  lemma HistoryGoesOn(digest: string -> string, states: seq<seq<Entry>>, after: seq<Entry>)
    requires IsHistory(digest, states) && IsChange(digest, states[|states| - 1], after)
    ensures IsHistory(digest, states + [after])
  {
    hide IsChange;
  }

  /** Devices enter one after the other. */
  method EnterAll(ids: seq<Identifier>, digest: string -> string) returns (connected: seq<Entry>, ghost states: seq<seq<Entry>>)
    requires |ids| <= NONCES && Injective(digest) && forall k :: 0 <= k < |ids| ==> ids[k].Fits()
    ensures IsHistory(digest, states) && connected == states[|states| - 1]
    ensures |connected| == |ids| && forall k :: 0 <= k < |ids| ==> connected[k].id == ids[k]
  {
    hide RawDescriptor, SomeFree, Injective, IsChange;
    connected, states := [], [[]];
    for k := 0 to |ids|
      invariant IsHistory(digest, states) && connected == states[|states| - 1]
      invariant |connected| == k && forall m :: 0 <= m < k ==> connected[m].id == ids[m]
    {
      HistoryDistinguishes(digest, states);
      if ids[k].uniqueId == "" {
        FewLeaveSomeFree(ids[k], digest, DescriptorsOf(connected, digest));
      }
      connected := Enter(connected, ids[k], digest);
      assert forall m :: 0 <= m < k ==> connected[m] == connected[..k][m];
      HistoryGoesOn(digest, states, connected);
      states := states + [connected];
    }
  }

  /** Vendor and product have a fixed width. */
  lemma SameRawIff(a: Entry, b: Entry)
    requires a.Fits() && b.Fits()
    ensures a.Raw() == b.Raw() <==> a.id.vendor == b.id.vendor && a.id.product == b.id.product && a.Tail() == b.Tail()
  {
    hide Hex4, NoncePart, NamePart;
    RawIs(a);
    RawIs(b);
    if a.Raw() == b.Raw() {
      assert Hex4(a.id.vendor) == a.Raw()[1..5] == Hex4(b.id.vendor);
      assert Hex4(a.id.product) == a.Raw()[6..10] == Hex4(b.id.product);
      assert a.Tail() == a.Raw()[11..] == b.Tail();
      Hex4IsInjective(a.id.vendor, b.id.vendor);
      Hex4IsInjective(a.id.product, b.id.product);
    }
  }

  lemma RawIs(e: Entry)
    requires e.Fits()
    ensures |e.Raw()| >= 11 && e.Raw()[1..5] == Hex4(e.id.vendor) && e.Raw()[6..10] == Hex4(e.id.product) && e.Raw()[11..] == e.Tail()
    ensures e.Raw() == ":" + Hex4(e.id.vendor) + ":" + Hex4(e.id.product) + ":" + e.Tail()
  {
    hide Hex4, NoncePart, NamePart;
  }

  /** Which part comes after vendor and product shows in its first letter. */
  lemma OneUniqueIdShows(a: Entry, b: Entry)
    requires a.Fits() && b.Fits() && a.id.uniqueId == "" && b.id.uniqueId != ""
    ensures a.Tail() != b.Tail()
  {
    hide Hex4;
    assert b.Tail()[0] == 'u';
  }

  /** When two connected devices have the same descriptor, at any time: only if both brought a unique id, and
      then if vendor, product and the unique id with what follows it are the same. */
  lemma SameDescriptorIff(digest: string -> string, states: seq<seq<Entry>>, i: nat, j: nat)
    requires IsHistory(digest, states) && Injective(digest)
    requires i < j < |states[|states| - 1]|
    ensures var connected := states[|states| - 1];
            && connected[i].Fits() && connected[j].Fits()
            && var a, b := connected[i], connected[j];
               digest(a.Raw()) == digest(b.Raw()) <==>
                 && a.id.uniqueId != "" && b.id.uniqueId != "" && a.id.vendor == b.id.vendor && a.id.product == b.id.product
                 && a.id.uniqueId + NamePart(a.id) == b.id.uniqueId + NamePart(b.id)
  {
    hide RawDescriptor, NamePart, Entry.Raw;
    HistoryDistinguishes(digest, states);
    var a, b := states[|states| - 1][i], states[|states| - 1][j];
    if b.id.uniqueId != "" {
      SameRawIff(a, b);
      if a.id.uniqueId == "" {
        OneUniqueIdShows(a, b);
      } else {
        UniqueTail(a);
        UniqueTail(b);
      }
    }
  }

  lemma UniqueTail(e: Entry)
    requires e.Fits() && e.id.uniqueId != ""
    ensures |e.Tail()| >= 9 && e.Tail() == "uniqueId:" + (e.id.uniqueId + NamePart(e.id)) && e.Tail()[9..] == e.id.uniqueId + NamePart(e.id)
  {
    hide NamePart;
  }

  /** For a device whose vendor or product is known that is the unique id alone. */
  lemma KnownDevicesDiffer(digest: string -> string, states: seq<seq<Entry>>, i: nat, j: nat)
    requires IsHistory(digest, states) && Injective(digest)
    requires i < j < |states[|states| - 1]| && (states[|states| - 1][j].id.vendor != 0 || states[|states| - 1][j].id.product != 0)
    ensures var connected := states[|states| - 1];
            && connected[i].Fits() && connected[j].Fits()
            && var a, b := connected[i].id, connected[j].id;
               digest(connected[i].Raw()) == digest(connected[j].Raw()) <==>
                 a.uniqueId == b.uniqueId != "" && a.vendor == b.vendor && a.product == b.product
  {
    hide RawDescriptor, Entry.Raw, Injective;
    SameDescriptorIff(digest, states, i, j);
    var a, b := states[|states| - 1][i].id, states[|states| - 1][j].id;
    if a.vendor == b.vendor && a.product == b.product {
      assert a.uniqueId + NamePart(a) == a.uniqueId && b.uniqueId + NamePart(b) == b.uniqueId;
    }
  }

  /** Such devices do come together, even with different unique ids: where the unique id ends and the name
      begins is not marked. */
  lemma DifferentUniqueIdsCollide(digest: string -> string)
    ensures var a, b := Entry(Identifier("b", "", "a", 0, 0), 0), Entry(Identifier("", "", "aname:b", 0, 0), 0);
            IsHistory(digest, [[], [a], [a, b]]) && a.id.uniqueId != b.id.uniqueId && digest(a.Raw()) == digest(b.Raw())
  {
    hide RawDescriptor, Entry.Raw;
    var a, b := Entry(Identifier("b", "", "a", 0, 0), 0), Entry(Identifier("", "", "aname:b", 0, 0), 0);
    assert NoncePart(a.id, 0) + NamePart(a.id) == "uniqueId:aname:b" == NoncePart(b.id, 0) + NamePart(b.id);
    SameRawIff(a, b);
    assert [] + [a] == [a] && [a] + [b] == [a, b];
    assert IsChange(digest, [], [a]) && IsChange(digest, [a], [a, b]);
  }
}
