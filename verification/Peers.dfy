/** Site normalisation and the kernel replication peers derived from it. */
module Peers {
  import opened Text

  datatype Option<+T> = None | Some(value: T)

  datatype KernelNode = KernelNode(nodeId: string, url: string, peers: string)

  datatype Pop = Pop(id: string, roles: seq<string>, db: Option<KernelNode>, ks: Option<KernelNode>)

  datatype Mesh = Mesh(mode: string, hubPop: string)

  datatype Kind = Db | Ks

  datatype SiteError = NoError | UnknownMode | IdRequired(index: nat) | DuplicateId(index: nat) | HubRequired | HubNotInPops

  // ---------------------------------------------------------------- normalisation

  function CleanId(s: string): string {
    ToLower(TrimSpace(s))
  }

  /** The canonical spelling of a mesh mode. */
  function CanonicalMode(raw: string): Option<string> {
    match CleanId(raw)
    case "" => Some("full-mesh")
    case "full-mesh" => Some("full-mesh")
    case "fullmesh" => Some("full-mesh")
    case "mesh" => Some("full-mesh")
    case "hub-spoke" => Some("hub-spoke")
    case "hubspoke" => Some("hub-spoke")
    case "star" => Some("hub-spoke")
    case "manual" => Some("manual")
    case _ => None
  }

  function CleanRoles(roles: seq<string>): (r: seq<string>)
    ensures |r| == |roles| && forall i | 0 <= i < |r| :: r[i] == CleanId(roles[i])
  {
    seq(|roles|, i requires 0 <= i < |roles| => CleanId(roles[i]))
  }

  function CleanPop(p: Pop): Pop {
    p.(id := CleanId(p.id), roles := CleanRoles(p.roles))
  }

  /** The first `n` pops normalised, the others as they were. */
  function CleanPrefix(pops: seq<Pop>, n: nat): (r: seq<Pop>)
    requires n <= |pops|
    ensures |r| == |pops| && forall i | 0 <= i < |r| :: r[i] == if i < n then CleanPop(pops[i]) else pops[i]
  {
    seq(|pops|, i requires 0 <= i < |pops| => if i < n then CleanPop(pops[i]) else pops[i])
  }

  predicate IdsOk(pops: seq<Pop>, n: nat)
    requires n <= |pops|
  {
    && (forall i | 0 <= i < n :: CleanId(pops[i].id) != "")
    && (forall i, j | 0 <= i < j < n :: CleanId(pops[i].id) != CleanId(pops[j].id))
  }

  predicate Unique(pops: seq<Pop>) {
    forall i, j | 0 <= i < j < |pops| :: pops[i].id != pops[j].id
  }

  class Site {
    var mesh: Option<Mesh>
    var pops: seq<Pop>

    constructor (mesh: Option<Mesh>, pops: seq<Pop>)
      ensures this.mesh == mesh && this.pops == pops
    {
      this.mesh := mesh;
      this.pops := pops;
    }

    /** normalizeSiteConfig: rewrites mode, ids and roles in place and stops at the first pop whose
        id is missing or already seen. */
    method Normalize() returns (err: SiteError)
      modifies this
      ensures err == NoError <==>
                (old(mesh).Some? ==> CanonicalMode(old(mesh).value.mode).Some?) && IdsOk(old(pops), |old(pops)|)
      ensures err == UnknownMode <==> old(mesh).Some? && CanonicalMode(old(mesh).value.mode).None?
      ensures err == UnknownMode ==> mesh == old(mesh) && pops == old(pops)
      ensures err != UnknownMode && old(mesh).Some? ==>
                mesh == Some(old(mesh).value.(mode := CanonicalMode(old(mesh).value.mode).value))
      ensures old(mesh).None? ==> mesh.None?
      ensures err == NoError ==> pops == CleanPrefix(old(pops), |old(pops)|)
      ensures err.IdRequired? || err.DuplicateId? ==>
                && err.index < |old(pops)| && IdsOk(old(pops), err.index)
                && pops == CleanPrefix(old(pops), err.index)
                && (err.IdRequired? <==> CleanId(old(pops)[err.index].id) == "")
                && (err.DuplicateId? ==> exists j | 0 <= j < err.index ::
                      CleanId(old(pops)[j].id) == CleanId(old(pops)[err.index].id))
      ensures !err.HubRequired? && !err.HubNotInPops?
    {
      if mesh.Some? {
        var m := CanonicalMode(mesh.value.mode);
        if m.None? {
          return UnknownMode;
        }
        mesh := Some(mesh.value.(mode := m.value));
      }
      ghost var before := pops;
      var seen: set<string> := {};
      var i := 0;
      while i < |pops|
        invariant 0 <= i <= |pops| == |before|
        invariant pops == CleanPrefix(before, i) && IdsOk(before, i)
        invariant forall k :: k in seen <==> exists j :: 0 <= j < i && CleanId(before[j].id) == k
        invariant mesh == if old(mesh).None? then None
                          else Some(old(mesh).value.(mode := CanonicalMode(old(mesh).value.mode).value))
      {
        var id := CleanId(pops[i].id);
        if id == "" {
          return IdRequired(i);
        }
        if id in seen {
          return DuplicateId(i);
        }
        seen := seen + {id};
        pops := pops[i := pops[i].(id := id)];
        NormalizeRoles(i);
        i := i + 1;
        assert pops == CleanPrefix(before, i);
      }
      return NoError;
    }

    /** The inner loop: the roles of one pop. */
    method NormalizeRoles(i: nat)
      requires i < |pops|
      modifies this`pops
      ensures pops == old(pops)[i := old(pops)[i].(roles := CleanRoles(old(pops)[i].roles))]
    {
      var j := 0;
      while j < |pops[i].roles|
        invariant |pops| == |old(pops)| && pops == old(pops)[i := old(pops)[i].(roles := pops[i].roles)]
        invariant 0 <= j <= |pops[i].roles| == |old(pops)[i].roles|
        invariant forall k | 0 <= k < |pops[i].roles| ::
                    pops[i].roles[k] == if k < j then CleanId(old(pops)[i].roles[k]) else old(pops)[i].roles[k]
      {
        pops := pops[i := pops[i].(roles := pops[i].roles[j := CleanId(pops[i].roles[j])])];
        j := j + 1;
      }
      assert pops[i].roles == CleanRoles(old(pops)[i].roles);
    }

    method HasPop(id: string) returns (found: bool)
      ensures found <==> exists j :: 0 <= j < |pops| && pops[j].id == id
    {
      found := false;
      for i := 0 to |pops|
        invariant found <==> exists j :: 0 <= j < i && pops[j].id == id
      {
        if pops[i].id == id {
          found := true;
          break;
        }
      }
    }

    /** validateSiteConfig. */
    method Validate() returns (err: SiteError)
      modifies this
      ensures err == NoError ==> Validated(mesh, pops)
      ensures err == NoError <==> Valid(old(mesh), old(pops))
    {
      err := Normalize();
      if err != NoError {
        return;
      }
      CleanIsValid(old(mesh), old(pops), mesh, pops);
      if mesh.Some? && mesh.value.mode == "hub-spoke" {
        var hub := CleanId(mesh.value.hubPop);
        if hub == "" {
          return HubRequired;
        }
        var found := HasPop(hub);
        if !found {
          return HubNotInPops;
        }
      }
      return NoError;
    }
  }

  /** The raw sites that validation accepts. */
  predicate Valid(mesh: Option<Mesh>, pops: seq<Pop>) {
    && (mesh.Some? ==> CanonicalMode(mesh.value.mode).Some?)
    && IdsOk(pops, |pops|)
    && (mesh.Some? && CanonicalMode(mesh.value.mode) == Some("hub-spoke") ==>
          HubOf(mesh) != "" && exists h :: 0 <= h < |pops| && CleanId(pops[h].id) == HubOf(mesh))
  }

  // ---------------------------------------------------------------- validated sites

  function ModeOf(mesh: Option<Mesh>): string {
    if mesh.None? || TrimSpace(mesh.value.mode) == "" then "full-mesh" else TrimSpace(mesh.value.mode)
  }

  function HubOf(mesh: Option<Mesh>): string {
    if mesh.None? then "" else CleanId(mesh.value.hubPop)
  }

  ghost predicate Normalized(mesh: Option<Mesh>, pops: seq<Pop>) {
    && (mesh.Some? ==> mesh.value.mode in {"full-mesh", "hub-spoke", "manual"})
    && (forall i | 0 <= i < |pops| :: CleanId(pops[i].id) == pops[i].id && pops[i].id != "" && Trimmed(pops[i].id))
    && Unique(pops)
  }

  ghost predicate Validated(mesh: Option<Mesh>, pops: seq<Pop>) {
    && Normalized(mesh, pops)
    && (mesh.Some? && mesh.value.mode == "hub-spoke" ==> exists h :: 0 <= h < |pops| && pops[h].id == HubOf(mesh))
  }

  lemma CleanTwice(s: string)
    ensures CleanId(CleanId(s)) == CleanId(s) && Trimmed(CleanId(s))
  {
    TrimSpaceIsTrimmed(s);
    var c := CleanId(s);
    TrimSpaceOfTrimmed(c);
    assert ToLower(c) == c;
  }

  lemma CleanIsValid(mesh: Option<Mesh>, pops: seq<Pop>, mesh': Option<Mesh>, pops': seq<Pop>)
    requires mesh.Some? ==> CanonicalMode(mesh.value.mode).Some?
    requires mesh' == if mesh.None? then None else Some(mesh.value.(mode := CanonicalMode(mesh.value.mode).value))
    requires IdsOk(pops, |pops|) && pops' == CleanPrefix(pops, |pops|)
    ensures Normalized(mesh', pops')
  {
    forall i | 0 <= i < |pops'|
      ensures CleanId(pops'[i].id) == pops'[i].id && pops'[i].id != "" && Trimmed(pops'[i].id)
    {
      CleanTwice(pops[i].id);
    }
  }

  // ---------------------------------------------------------------- expansion

  function NodeOf(p: Pop, kind: Kind): Option<KernelNode> {
    if kind.Db? then p.db else p.ks
  }

  function UrlOf(p: Pop, kind: Kind): string {
    if NodeOf(p, kind).None? then "" else TrimSpace(NodeOf(p, kind).value.url)
  }

  function PeerId(p: Pop, kind: Kind): string
    requires NodeOf(p, kind).Some?
  {
    var id := TrimSpace(NodeOf(p, kind).value.nodeId);
    if id == "" then (if kind.Ks? then "uks-" else "udb-") + p.id else id
  }

  predicate HasUrl(p: Pop, kind: Kind): (r: bool)
    ensures r ==> NodeOf(p, kind).Some?
  {
    |UrlOf(p, kind)| > 0
  }

  /** Pop `self` lists `p` among its peers. */
  predicate Lists(mode: string, hub: string, self: string, p: Pop, kind: Kind) {
    && p.id != self && HasUrl(p, kind)
    && (mode == "full-mesh" || (mode == "hub-spoke" && (self == hub || p.id == hub)))
  }

  function Listed(mode: string, hub: string, self: string, pops: seq<Pop>, kind: Kind): seq<Pop> {
    if pops == [] then []
    else
      var n := |pops| - 1;
      var r := Listed(mode, hub, self, pops[..n], kind);
      if Lists(mode, hub, self, pops[n], kind) then r + [pops[n]] else r
  }

  predicate AllHaveUrl(pops: seq<Pop>, kind: Kind) {
    forall i | 0 <= i < |pops| :: HasUrl(pops[i], kind)
  }

  function Part(p: Pop, kind: Kind): string
    requires HasUrl(p, kind)
  {
    PeerId(p, kind) + "=" + UrlOf(p, kind)
  }

  function Parts(pops: seq<Pop>, kind: Kind): (r: seq<string>)
    requires AllHaveUrl(pops, kind)
    ensures |r| == |pops| && forall i | 0 <= i < |r| :: r[i] == Part(pops[i], kind)
  {
    seq(|pops|, i requires 0 <= i < |pops| => Part(pops[i], kind))
  }

  lemma {:induction false} ListedHaveUrl(mode: string, hub: string, self: string, pops: seq<Pop>, kind: Kind)
    ensures AllHaveUrl(Listed(mode, hub, self, pops, kind), kind)
  {
    if pops != [] {
      var n := |pops| - 1;
      var before := Listed(mode, hub, self, pops[..n], kind);
      ListedHaveUrl(mode, hub, self, pops[..n], kind);
      if Lists(mode, hub, self, pops[n], kind) {
        HaveUrlSnoc(before, pops[n], kind);
      }
    }
  }

  lemma HaveUrlSnoc(pops: seq<Pop>, p: Pop, kind: Kind)
    requires AllHaveUrl(pops, kind) && HasUrl(p, kind)
    ensures AllHaveUrl(pops + [p], kind)
  {
  }

  lemma ListedStep(mode: string, hub: string, self: string, pops: seq<Pop>, i: nat, kind: Kind)
    requires i < |pops|
    ensures Listed(mode, hub, self, pops[..i + 1], kind)
         == Listed(mode, hub, self, pops[..i], kind) + if Lists(mode, hub, self, pops[i], kind) then [pops[i]] else []
  {
    assert pops[..i + 1][..i] == pops[..i];
  }

  predicate Collected(l: seq<Pop>, parts: seq<string>, kind: Kind) {
    AllHaveUrl(l, kind) && parts == Parts(l, kind)
  }

  lemma CollectedStep(l: seq<Pop>, parts: seq<string>, p: Pop, id: string, kind: Kind)
    requires Collected(l, parts, kind) && HasUrl(p, kind) && id == PeerId(p, kind)
    ensures Collected(l + [p], parts + [id + "=" + UrlOf(p, kind)], kind)
  {
  }

  lemma {:induction false} ManualListsNobody(hub: string, self: string, pops: seq<Pop>, kind: Kind)
    ensures Listed("manual", hub, self, pops, kind) == []
  {
    if pops != [] {
      ManualListsNobody(hub, self, pops[..|pops| - 1], kind);
    }
  }

  /** The defaults of expandKernelPeers. */
  method MeshSettings(mesh: Option<Mesh>) returns (mode: string, hubPop: string)
    ensures mode == ModeOf(mesh) && hubPop == HubOf(mesh)
  {
    mode := "full-mesh";
    hubPop := "";
    if mesh.Some? {
      var m := TrimSpace(mesh.value.mode);
      if m != "" {
        mode := m;
      }
      hubPop := CleanId(mesh.value.hubPop);
    }
  }

  /** The accumulation loop of expandKernelPeers. */
  method ExpandKernelPeers(mesh: Option<Mesh>, pops: seq<Pop>, selfPopId: string, kind: Kind) returns (text: string)
    ensures var l := Listed(ModeOf(mesh), HubOf(mesh), CleanId(selfPopId), pops, kind);
            AllHaveUrl(l, kind) && text == Join(Parts(l, kind), ',')
  {
    ListedHaveUrl(ModeOf(mesh), HubOf(mesh), CleanId(selfPopId), pops, kind);
    if |pops| == 0 {
      return "";
    }
    var mode, hubPop := MeshSettings(mesh);
    if mode == "manual" {
      ManualListsNobody(hubPop, CleanId(selfPopId), pops, kind);
      return "";
    }
    var self := CleanId(selfPopId);
    var parts: seq<string> := [];
    ghost var l: seq<Pop> := [];
    for i := 0 to |pops|
      invariant l == Listed(mode, hubPop, self, pops[..i], kind)
      invariant Collected(l, parts, kind)
    {
      var p := pops[i];
      ListedStep(mode, hubPop, self, pops, i, kind);
      if p.id == self {
        continue;
      }
      if NodeOf(p, kind).None? {
        continue;
      }
      var url := TrimSpace(NodeOf(p, kind).value.url);
      if url == "" {
        continue;
      }
      var id := PeerId(p, kind);
      var wanted := false;
      if mode == "full-mesh" {
        wanted := true;
      } else if mode == "hub-spoke" {
        if self == hubPop {
          wanted := true;
        } else if p.id == hubPop {
          wanted := true;
        }
      }
      if wanted {
        CollectedStep(l, parts, p, id, kind);
        parts := parts + [id + "=" + url];
        l := l + [p];
      }
    }
    assert pops[..|pops|] == pops;
    return Join(parts, ',');
  }

  // ---------------------------------------------------------------- the peer graph

  /** Pop `i` lists pop `j`. */
  predicate Edge(mesh: Option<Mesh>, pops: seq<Pop>, i: nat, j: nat, kind: Kind)
    requires i < |pops| && j < |pops|
  {
    Lists(ModeOf(mesh), HubOf(mesh), CleanId(pops[i].id), pops[j], kind)
  }

  lemma ModesAreTrimmed(mesh: Option<Mesh>, pops: seq<Pop>)
    requires Normalized(mesh, pops)
    ensures ModeOf(mesh) == if mesh.None? then "full-mesh" else mesh.value.mode
  {
    TrimSpaceOfTrimmed("full-mesh");
    TrimSpaceOfTrimmed("hub-spoke");
    TrimSpaceOfTrimmed("manual");
  }

  /** The relation is irreflexive, and symmetric over the pops that have a URL. */
  lemma GraphIsSymmetric(mesh: Option<Mesh>, pops: seq<Pop>, i: nat, j: nat, kind: Kind)
    requires Validated(mesh, pops) && i < |pops| && j < |pops|
    ensures !Edge(mesh, pops, i, i, kind)
    ensures HasUrl(pops[i], kind) && HasUrl(pops[j], kind) ==>
              (Edge(mesh, pops, i, j, kind) <==> Edge(mesh, pops, j, i, kind))
  {
  }

  /** Full mesh: each pop lists exactly the others that have a URL. */
  lemma FullMesh(mesh: Option<Mesh>, pops: seq<Pop>, i: nat, j: nat, kind: Kind)
    requires Validated(mesh, pops) && i < |pops| && j < |pops|
    requires mesh.Some? ==> mesh.value.mode == "full-mesh"
    ensures Edge(mesh, pops, i, j, kind) <==> i != j && HasUrl(pops[j], kind)
  {
    ModesAreTrimmed(mesh, pops);
    if i != j {
      assert pops[i].id != pops[j].id;
    }
  }

  lemma {:induction false} ListedConcat(mode: string, hub: string, self: string, a: seq<Pop>, b: seq<Pop>, kind: Kind)
    ensures Listed(mode, hub, self, a + b, kind) == Listed(mode, hub, self, a, kind) + Listed(mode, hub, self, b, kind)
  {
    if b == [] {
      assert a + b == a;
    } else {
      var n := |b| - 1;
      assert (a + b)[..|a| + n] == a + b[..n];
      ListedConcat(mode, hub, self, a, b[..n], kind);
    }
  }

  predicate AllListed(mode: string, hub: string, self: string, pops: seq<Pop>, kind: Kind) {
    forall i | 0 <= i < |pops| :: Lists(mode, hub, self, pops[i], kind)
  }

  lemma {:induction false} ListedAll(mode: string, hub: string, self: string, pops: seq<Pop>, kind: Kind)
    requires AllListed(mode, hub, self, pops, kind)
    ensures Listed(mode, hub, self, pops, kind) == pops
  {
    if pops != [] {
      var n := |pops| - 1;
      ListedAll(mode, hub, self, pops[..n], kind);
      assert pops[..n] + [pops[n]] == pops;
    }
  }

  lemma ListedNone(mode: string, hub: string, self: string, p: Pop, kind: Kind)
    requires !Lists(mode, hub, self, p, kind)
    ensures Listed(mode, hub, self, [p], kind) == []
  {
    assert [p][..0] == [];
  }

  lemma ListedAllBut(mode: string, hub: string, self: string, a: seq<Pop>, p: Pop, b: seq<Pop>, kind: Kind)
    requires AllListed(mode, hub, self, a, kind)
    requires AllListed(mode, hub, self, b, kind)
    requires !Lists(mode, hub, self, p, kind)
    ensures Listed(mode, hub, self, a + ([p] + b), kind) == a + b
  {
    ListedAll(mode, hub, self, a, kind);
    ListedAll(mode, hub, self, b, kind);
    ListedConcat(mode, hub, self, a, [p] + b, kind);
    ListedSkip(mode, hub, self, p, b, kind);
  }

  lemma ListedSkip(mode: string, hub: string, self: string, p: Pop, b: seq<Pop>, kind: Kind)
    requires !Lists(mode, hub, self, p, kind)
    ensures Listed(mode, hub, self, [p] + b, kind) == Listed(mode, hub, self, b, kind)
  {
    ListedNone(mode, hub, self, p, kind);
    ListedConcat(mode, hub, self, [p], b, kind);
  }

  lemma OthersAreListed(mesh: Option<Mesh>, pops: seq<Pop>, i: nat, k: nat, kind: Kind)
    requires Validated(mesh, pops) && i < |pops| && k < |pops| && HasUrl(pops[k], kind)
    requires mesh.Some? ==> mesh.value.mode == "full-mesh"
    ensures Lists(ModeOf(mesh), HubOf(mesh), CleanId(pops[i].id), pops[k], kind) <==> k != i
  {
    FullMesh(mesh, pops, i, k, kind);
  }

  /** With URLs everywhere, each pop lists exactly the n - 1 others, in site order. */
  lemma FullMeshListsTheOthers(mesh: Option<Mesh>, pops: seq<Pop>, i: nat, kind: Kind)
    requires Validated(mesh, pops) && i < |pops|
    requires mesh.Some? ==> mesh.value.mode == "full-mesh"
    requires AllHaveUrl(pops, kind)
    ensures Listed(ModeOf(mesh), HubOf(mesh), CleanId(pops[i].id), pops, kind) == pops[..i] + pops[i + 1..]
  {
    var mode, hub, self := ModeOf(mesh), HubOf(mesh), CleanId(pops[i].id);
    forall k | 0 <= k < |pops| ensures Lists(mode, hub, self, pops[k], kind) <==> k != i {
      OthersAreListed(mesh, pops, i, k, kind);
    }
    assert pops == pops[..i] + ([pops[i]] + pops[i + 1..]);
    ListedAllBut(mode, hub, self, pops[..i], pops[i], pops[i + 1..], kind);
  }

  /** Hub and spokes: an edge is between the hub and another pop with a URL. */
  lemma HubSpoke(mesh: Option<Mesh>, pops: seq<Pop>, h: nat, i: nat, j: nat, kind: Kind)
    requires Validated(mesh, pops) && mesh.Some? && mesh.value.mode == "hub-spoke"
    requires h < |pops| && pops[h].id == HubOf(mesh) && i < |pops| && j < |pops|
    ensures Edge(mesh, pops, i, j, kind) <==> i != j && (i == h || j == h) && HasUrl(pops[j], kind)
  {
    ModesAreTrimmed(mesh, pops);
    assert forall k | 0 <= k < |pops| && k != h :: pops[k].id != pops[h].id;
    if i != j {
      assert pops[i].id != pops[j].id;
    }
  }

  /** One of the two pops lists the other. */
  predicate Linked(mesh: Option<Mesh>, pops: seq<Pop>, kind: Kind, i: nat, j: nat) {
    i < |pops| && j < |pops| && (Edge(mesh, pops, i, j, kind) || Edge(mesh, pops, j, i, kind))
  }

  /** A path of links that stays inside a set of pops. */
  ghost predicate Path(link: (nat, nat) -> bool, inside: nat -> bool, path: seq<nat>) {
    && (forall i | 0 <= i < |path| :: inside(path[i]))
    && (forall i, j | 0 <= i < |path| && j == i + 1 && j < |path| :: link(path[i], path[j]))
  }

  ghost predicate Reachable(link: (nat, nat) -> bool, inside: nat -> bool, i: nat, j: nat) {
    exists path :: Path(link, inside, path) && |path| > 0 && path[0] == i && path[|path| - 1] == j
  }

  /** Any two pops of the set are joined by links between pops of the set. */
  ghost predicate Connected(link: (nat, nat) -> bool, inside: nat -> bool) {
    forall i: nat, j: nat | inside(i) && inside(j) :: Reachable(link, inside, i, j)
  }

  /** Links of a star: between the centre and another pop, when one of the two has a URL. */
  ghost predicate Star(link: (nat, nat) -> bool, url: nat -> bool, n: nat, h: nat) {
    h < n && forall i: nat, j: nat | i < n && j < n :: link(i, j) <==> i != j && (i == h || j == h) && (url(i) || url(j))
  }

  lemma ThroughCentre(link: (nat, nat) -> bool, inside: nat -> bool, h: nat, i: nat, j: nat)
    requires inside(i) && inside(j) && inside(h)
    requires (i == h || link(i, h)) && (j == h || link(h, j))
    ensures Reachable(link, inside, i, j)
  {
    var path := if i == j then [i] else if i == h then [h, j] else if j == h then [i, h] else [i, h, j];
    assert Path(link, inside, path);
  }

  /** A path between two different ends starts with a link. */
  lemma FirstLink(link: (nat, nat) -> bool, inside: nat -> bool, i: nat, j: nat) returns (k: nat)
    requires Reachable(link, inside, i, j) && i != j
    ensures inside(i) && inside(k) && link(i, k)
  {
    var path :| Path(link, inside, path) && |path| > 0 && path[0] == i && path[|path| - 1] == j;
    k := path[1];
  }

  lemma StarAll(link: (nat, nat) -> bool, url: nat -> bool, inside: nat -> bool, n: nat, h: nat)
    requires Star(link, url, n, h) && forall i: nat :: inside(i) <==> i < n
    ensures Connected(link, inside) <==> url(h) || forall i: nat | i < n && i != h :: url(i)
  {
    if url(h) || forall i: nat | i < n && i != h :: url(i) {
      forall i: nat, j: nat | inside(i) && inside(j) ensures Reachable(link, inside, i, j) {
        ThroughCentre(link, inside, h, i, j);
      }
    } else {
      var i: nat :| i < n && i != h && !url(i);
      if Reachable(link, inside, i, h) {
        var k := FirstLink(link, inside, i, h);
      }
    }
  }

  lemma StarOfUrls(link: (nat, nat) -> bool, url: nat -> bool, inside: nat -> bool, n: nat, h: nat)
    requires Star(link, url, n, h) && forall i: nat :: inside(i) <==> i < n && url(i)
    ensures Connected(link, inside) <==> url(h) || forall i: nat, j: nat | i < n && j < n && url(i) && url(j) :: i == j
  {
    if url(h) {
      forall i: nat, j: nat | inside(i) && inside(j) ensures Reachable(link, inside, i, j) {
        ThroughCentre(link, inside, h, i, j);
      }
    } else if forall i: nat, j: nat | i < n && j < n && url(i) && url(j) :: i == j {
      forall i: nat, j: nat | inside(i) && inside(j) ensures Reachable(link, inside, i, j) {
        assert Path(link, inside, [i]);
      }
    } else {
      var i: nat, j: nat :| i < n && j < n && url(i) && url(j) && i != j;
      if Reachable(link, inside, i, j) {
        var k := FirstLink(link, inside, i, j);
      }
    }
  }

  function Links(mesh: Option<Mesh>, pops: seq<Pop>, kind: Kind): (nat, nat) -> bool {
    (i: nat, j: nat) => Linked(mesh, pops, kind, i, j)
  }

  function WithUrl(pops: seq<Pop>, kind: Kind): nat -> bool {
    (i: nat) => i < |pops| && HasUrl(pops[i], kind)
  }

  function AllOf(pops: seq<Pop>): nat -> bool {
    (i: nat) => i < |pops|
  }

  lemma HubIsStar(mesh: Option<Mesh>, pops: seq<Pop>, h: nat, kind: Kind)
    requires Validated(mesh, pops) && mesh.Some? && mesh.value.mode == "hub-spoke"
    requires h < |pops| && pops[h].id == HubOf(mesh)
    ensures Star(Links(mesh, pops, kind), WithUrl(pops, kind), |pops|, h)
  {
    forall i: nat, j: nat | i < |pops| && j < |pops|
      ensures Links(mesh, pops, kind)(i, j) <==>
                i != j && (i == h || j == h) && (WithUrl(pops, kind)(i) || WithUrl(pops, kind)(j))
    {
      LinkOfHub(mesh, pops, h, i, j, kind);
    }
  }

  lemma LinkOfHub(mesh: Option<Mesh>, pops: seq<Pop>, h: nat, i: nat, j: nat, kind: Kind)
    requires Validated(mesh, pops) && mesh.Some? && mesh.value.mode == "hub-spoke"
    requires h < |pops| && pops[h].id == HubOf(mesh) && i < |pops| && j < |pops|
    ensures Linked(mesh, pops, kind, i, j) <==>
              i != j && (i == h || j == h) && (HasUrl(pops[i], kind) || HasUrl(pops[j], kind))
  {
    HubSpoke(mesh, pops, h, i, j, kind);
    HubSpoke(mesh, pops, h, j, i, kind);
  }

  /** Two pops are linked when one lists the other. In a hub-spoke mesh, the pops with a URL are
      connected by links among themselves exactly when the hub has a URL or there is at most one of
      them; all pops are connected exactly when the hub has a URL or every spoke has. */
  lemma StarIsConnected(mesh: Option<Mesh>, pops: seq<Pop>, h: nat, kind: Kind)
    requires Validated(mesh, pops) && mesh.Some? && mesh.value.mode == "hub-spoke"
    requires h < |pops| && pops[h].id == HubOf(mesh)
    ensures var url := WithUrl(pops, kind);
            && (Connected(Links(mesh, pops, kind), url) <==>
                  url(h) || forall i: nat, j: nat | i < |pops| && j < |pops| && url(i) && url(j) :: i == j)
            && (Connected(Links(mesh, pops, kind), AllOf(pops)) <==>
                  url(h) || forall i: nat | i < |pops| && i != h :: url(i))
  {
    var link, url := Links(mesh, pops, kind), WithUrl(pops, kind);
    HubIsStar(mesh, pops, h, kind);
    StarOfUrls(link, url, url, |pops|, h);
    StarAll(link, url, AllOf(pops), |pops|, h);
  }

  // ---------------------------------------------------------------- the text form

  datatype Peer = Peer(id: string, addr: string)

  /** One comma-separated part; `i` is its position. */
  function ReadPart(raw: string, i: nat): seq<Peer> {
    var part := TrimSpace(raw);
    var eq := IndexOf(part, '=');
    if part == "" then []
    else if 0 < eq < |part| then [Peer(TrimSpace(part[..eq]), TrimSpace(part[eq + 1..]))]
    else [Peer("peer-" + FormatInt(i + 1), part)]
  }

  function ReadParts(parts: seq<string>): seq<Peer> {
    if parts == [] then []
    else
      var n := |parts| - 1;
      ReadParts(parts[..n]) + ReadPart(parts[n], n)
  }

  function SplitPeers(raw: string): seq<Peer> {
    var s := TrimSpace(raw);
    if s == "" then [] else ReadParts(Split(s, ','))
  }

  method SplitKernelPeers(raw: string) returns (out: seq<Peer>)
    ensures out == SplitPeers(raw)
  {
    var s := TrimSpace(raw);
    if s == "" {
      return [];
    }
    out := [];
    var parts := Split(s, ',');
    for i := 0 to |parts|
      invariant out == ReadParts(parts[..i])
    {
      assert parts[..i + 1][..i] == parts[..i];
      var more := ReadOnePart(parts[i], i);
      out := out + more;
    }
    assert parts[..|parts|] == parts;
  }

  /** The loop body: what one part appends. */
  method ReadOnePart(raw: string, i: nat) returns (more: seq<Peer>)
    ensures more == ReadPart(raw, i)
  {
    var part := TrimSpace(raw);
    if part == "" {
      return [];
    }
    var eq := IndexOf(part, '=');
    if 0 < eq < |part| {
      return [Peer(TrimSpace(part[..eq]), TrimSpace(part[eq + 1..]))];
    }
    return [Peer("peer-" + FormatInt(i + 1), part)];
  }

  predicate TextSafe(id: string, url: string) {
    && id != "" && Trimmed(id) && ',' !in id && '=' !in id
    && url != "" && Trimmed(url) && ',' !in url
  }

  lemma PartReads(id: string, url: string, i: nat)
    requires TextSafe(id, url)
    ensures ReadPart(id + "=" + url, i) == [Peer(id, url)] && ',' !in id + "=" + url && Trimmed(id + "=" + url)
  {
    var part := id + ['='] + url;
    assert part == id + "=" + url;
    assert part[0] == id[0] && part[|part| - 1] == url[|url| - 1];
    TrimSpaceOfTrimmed(part);
    IndexOfAt(id, '=', url);
    assert part[..|id|] == id && part[|id| + 1..] == url;
    TrimSpaceOfTrimmed(id);
    TrimSpaceOfTrimmed(url);
  }

  function PeerOf(p: Pop, kind: Kind): Peer
    requires HasUrl(p, kind)
  {
    Peer(PeerId(p, kind), UrlOf(p, kind))
  }

  function PeersOf(pops: seq<Pop>, kind: Kind): (r: seq<Peer>)
    requires AllHaveUrl(pops, kind)
    ensures |r| == |pops| && forall i | 0 <= i < |r| :: r[i] == PeerOf(pops[i], kind)
  {
    seq(|pops|, i requires 0 <= i < |pops| => PeerOf(pops[i], kind))
  }

  predicate PopTextSafe(p: Pop, kind: Kind) {
    HasUrl(p, kind) && TextSafe(PeerId(p, kind), UrlOf(p, kind))
  }

  predicate AllTextSafe(pops: seq<Pop>, kind: Kind) {
    forall i | 0 <= i < |pops| :: PopTextSafe(pops[i], kind)
  }

  lemma PopPartReads(p: Pop, kind: Kind, i: nat)
    requires PopTextSafe(p, kind)
    ensures ReadPart(Part(p, kind), i) == [PeerOf(p, kind)]
    ensures Part(p, kind) != "" && ',' !in Part(p, kind) && Trimmed(Part(p, kind))
  {
    PartReads(PeerId(p, kind), UrlOf(p, kind), i);
  }

  lemma PartsSnoc(pops: seq<Pop>, kind: Kind)
    requires pops != [] && AllHaveUrl(pops, kind)
    ensures var n := |pops| - 1;
            && Parts(pops, kind) == Parts(pops[..n], kind) + [Part(pops[n], kind)]
            && PeersOf(pops, kind) == PeersOf(pops[..n], kind) + [PeerOf(pops[n], kind)]
  {
  }

  lemma ReadPartsSnoc(parts: seq<string>, part: string)
    ensures ReadParts(parts + [part]) == ReadParts(parts) + ReadPart(part, |parts|)
  {
    assert (parts + [part])[..|parts|] == parts;
  }

  lemma {:induction false} PartsRead(pops: seq<Pop>, kind: Kind)
    requires AllTextSafe(pops, kind)
    ensures ReadParts(Parts(pops, kind)) == PeersOf(pops, kind)
  {
    if pops != [] {
      var n := |pops| - 1;
      PartsRead(pops[..n], kind);
      PopPartReads(pops[n], kind, n);
      PartsSnoc(pops, kind);
      ReadPartsSnoc(Parts(pops[..n], kind), Part(pops[n], kind));
    }
  }

  lemma {:induction false} JoinTrimmed(parts: seq<string>)
    requires parts != [] && forall i | 0 <= i < |parts| :: parts[i] != "" && Trimmed(parts[i])
    ensures Join(parts, ',') != "" && Trimmed(Join(parts, ','))
  {
    if |parts| > 1 {
      JoinTrimmed(parts[1..]);
      var s := Join(parts, ',');
      var tail := Join(parts[1..], ',');
      assert s[0] == parts[0][0] && s[|s| - 1] == tail[|tail| - 1];
    }
  }

  /** The emitted text reads back as exactly the listed pairs, in order. */
  lemma PeersRoundTrip(pops: seq<Pop>, kind: Kind)
    requires AllTextSafe(pops, kind)
    ensures SplitPeers(Join(Parts(pops, kind), ',')) == PeersOf(pops, kind)
  {
    var parts := Parts(pops, kind);
    if pops == [] {
      assert TrimSpace("") == "";
    } else {
      forall i | 0 <= i < |parts| ensures parts[i] != "" && Trimmed(parts[i]) && ',' !in parts[i] {
        PopPartReads(pops[i], kind, i);
      }
      JoinTrimmed(parts);
      TrimSpaceOfTrimmed(Join(parts, ','));
      forall p | p in parts ensures ',' !in p {
      }
      SplitJoin(parts, ',');
      PartsRead(pops, kind);
    }
  }

  /** Trimming already gives most of what the text form needs. */
  lemma NodesAreTextSafe(p: Pop, kind: Kind)
    requires HasUrl(p, kind) && p.id != "" && Trimmed(p.id)
    ensures TextSafe(PeerId(p, kind), UrlOf(p, kind))
       <==> ',' !in PeerId(p, kind) && '=' !in PeerId(p, kind) && ',' !in UrlOf(p, kind)
  {
    TrimSpaceIsTrimmed(NodeOf(p, kind).value.url);
    TrimSpaceIsTrimmed(NodeOf(p, kind).value.nodeId);
    var id := PeerId(p, kind);
    if TrimSpace(NodeOf(p, kind).value.nodeId) == "" {
      assert id[|id| - 1] == p.id[|p.id| - 1];
    }
  }

  // ---------------------------------------------------------------- in terms of the site's own fields

  /** A database peer is the pop's database node: its id, or one made from the pop's, and its URL; a
      keystore peer is the keystore node. A pop without the node, or with a blank URL, is no peer. */
  lemma PeerFields(p: Pop, node: KernelNode, lead: string, trail: string, url: string, name: string)
    requires node.url == lead + url + trail && node.nodeId == lead + name + trail
    requires AllSpace(lead) && AllSpace(trail) && Trimmed(url) && Trimmed(name)
    ensures p.db == Some(node) ==> (HasUrl(p, Db) <==> url != "")
    ensures p.db == Some(node) && url != "" ==> PeerOf(p, Db) == Peer(if name == "" then "udb-" + p.id else name, url)
    ensures p.ks == Some(node) ==> (HasUrl(p, Ks) <==> url != "")
    ensures p.ks == Some(node) && url != "" ==> PeerOf(p, Ks) == Peer(if name == "" then "uks-" + p.id else name, url)
    ensures p.db.None? ==> !HasUrl(p, Db)
    ensures p.ks.None? ==> !HasUrl(p, Ks)
  {
    TrimAround(lead, url, trail);
    TrimAround(lead, name, trail);
  }

  /** The accepted spellings of the three modes, in any letter case and with white space around. */
  lemma ModeSpellings(lead: string, s: string, trail: string)
    requires AllSpace(lead) && AllSpace(trail) && Trimmed(s)
    ensures var mode := CanonicalMode(lead + s + trail);
            && (mode == Some("full-mesh") <==> ToLower(s) in ["", "full-mesh", "fullmesh", "mesh"])
            && (mode == Some("hub-spoke") <==> ToLower(s) in ["hub-spoke", "hubspoke", "star"])
            && (mode == Some("manual") <==> ToLower(s) == "manual")
            && (mode.Some? ==> CanonicalMode(mode.value) == mode)
  {
    TrimAround(lead, s, trail);
    var raw := lead + s + trail;
    assert CleanId(raw) == ToLower(s);
    MeshSpellings(raw);
    HubSpellings(raw);
    ManualSpelling(raw);
    CanonicalTwice(raw);
  }

  lemma MeshSpellings(raw: string)
    ensures CanonicalMode(raw) == Some("full-mesh") <==> CleanId(raw) in ["", "full-mesh", "fullmesh", "mesh"]
  {
  }

  lemma HubSpellings(raw: string)
    ensures CanonicalMode(raw) == Some("hub-spoke") <==> CleanId(raw) in ["hub-spoke", "hubspoke", "star"]
  {
  }

  lemma ManualSpelling(raw: string)
    ensures CanonicalMode(raw) == Some("manual") <==> CleanId(raw) == "manual"
  {
  }

  lemma CanonicalTwice(raw: string)
    ensures CanonicalMode(raw).Some? ==> CanonicalMode(CanonicalMode(raw).value) == CanonicalMode(raw)
  {
    assert CleanId("full-mesh") == "full-mesh" && CleanId("hub-spoke") == "hub-spoke" && CleanId("manual") == "manual";
  }

  predicate Unnamed(part: string) {
    part != "" && Trimmed(part) && ',' !in part && '=' !in part
  }

  lemma UnnamedReads(part: string, i: nat)
    requires Unnamed(part)
    ensures ReadPart(part, i) == [NumberedPeer(part, i)]
  {
    TrimSpaceOfTrimmed(part);
    IndexOfAbsent(part, '=');
  }

  /** One peer for each part, numbered from one. */
  predicate Numbered(peers: seq<Peer>, parts: seq<string>) {
    |peers| == |parts| && forall i | 0 <= i < |parts| :: peers[i] == NumberedPeer(parts[i], i)
  }

  function NumberedPeer(part: string, i: nat): Peer {
    Peer("peer-" + FormatInt(i + 1), part)
  }

  lemma NumberedSnoc(peers: seq<Peer>, parts: seq<string>, part: string)
    requires Numbered(peers, parts)
    ensures Numbered(peers + [NumberedPeer(part, |parts|)], parts + [part])
  {
  }

  lemma {:induction false} UnnamedRead(parts: seq<string>)
    requires forall i | 0 <= i < |parts| :: Unnamed(parts[i])
    ensures Numbered(ReadParts(parts), parts)
  {
    if parts != [] {
      var n := |parts| - 1;
      var before, part := parts[..n], parts[n];
      assert parts == before + [part];
      UnnamedRead(before);
      UnnamedReads(part, n);
      ReadPartsSnoc(before, part);
      NumberedSnoc(ReadParts(before), before, part);
    }
  }

  /** Addresses given without ids are numbered from one, in order. */
  lemma UnnamedAreNumbered(parts: seq<string>)
    requires forall i | 0 <= i < |parts| :: Unnamed(parts[i])
    ensures Numbered(SplitPeers(Join(parts, ',')), parts)
  {
    if parts == [] {
      assert TrimSpace("") == "";
    } else {
      JoinTrimmed(parts);
      TrimSpaceOfTrimmed(Join(parts, ','));
      forall p | p in parts ensures ',' !in p {
        var i :| 0 <= i < |parts| && parts[i] == p;
        assert Unnamed(parts[i]);
      }
      SplitJoin(parts, ',');
      UnnamedRead(parts);
    }
  }

  lemma PaddedSides(id: string, b: string, c: string, url: string)
    requires AllSpace(b) && AllSpace(c) && Trimmed(id) && Trimmed(url)
    ensures TrimSpace(id + b) == id && TrimSpace(c + url) == url
  {
    TrimAround("", id, b);
    assert "" + id + b == id + b;
    TrimAround(c, url, "");
    assert c + url + "" == c + url;
  }

  lemma PaddedEquals(id: string, b: string, c: string, url: string, part: string)
    requires '=' !in id && '=' !in b && part == id + b + "=" + c + url
    ensures IndexOf(part, '=') == |id + b| && part[..|id + b|] == id + b && part[|id + b| + 1..] == c + url
  {
    assert part == (id + b) + ['='] + (c + url);
    IndexOfAt(id + b, '=', c + url);
  }

  lemma ReadsAs(raw: string, part: string, n: nat, id: string, url: string, i: nat)
    requires TrimSpace(raw) == part && IndexOf(part, '=') == n && 0 < n < |part|
    requires TrimSpace(part[..n]) == id && TrimSpace(part[n + 1..]) == url
    ensures ReadPart(raw, i) == [Peer(id, url)]
  {
  }

  lemma PaddedEnds(id: string, b: string, c: string, url: string)
    requires TextSafe(id, url)
    ensures Trimmed(id + b + "=" + c + url) && |id + b| > 0
  {
    var part := id + b + "=" + c + url;
    assert part[0] == id[0] && part[|part| - 1] == url[|url| - 1];
  }

  /** White space around the parts, and around ids and addresses, does not matter; blank parts are
      skipped. */
  lemma PaddedPart(a: string, id: string, b: string, c: string, url: string, d: string, i: nat)
    requires AllSpace(a) && AllSpace(b) && AllSpace(c) && AllSpace(d) && TextSafe(id, url) && '=' !in b
    ensures ReadPart(a + (id + b + "=" + c + url) + d, i) == [Peer(id, url)]
  {
    var part := id + b + "=" + c + url;
    PaddedEnds(id, b, c, url);
    TrimAround(a, part, d);
    PaddedEquals(id, b, c, url, part);
    PaddedSides(id, b, c, url);
    ReadsAs(a + part + d, part, |id + b|, id, url, i);
  }

  lemma BlankPart(a: string, i: nat)
    requires AllSpace(a)
    ensures ReadPart(a, i) == []
  {
    TrimAround(a, "", "");
    assert a + "" + "" == a;
  }

  lemma PaddedText(lead: string, s: string, trail: string)
    requires AllSpace(lead) && AllSpace(trail) && Trimmed(s)
    ensures SplitPeers(lead + s + trail) == SplitPeers(s) && (s == "" ==> SplitPeers(s) == [])
  {
    TrimAround(lead, s, trail);
    TrimSpaceOfTrimmed(s);
  }

  /** The settings a mesh stands for: a missing or blank mode is a full mesh. */
  lemma MeshStandsFor(lead: string, mode: string, hub: string, trail: string)
    requires AllSpace(lead) && AllSpace(trail) && Trimmed(mode) && Trimmed(hub)
    ensures ModeOf(None) == "full-mesh" && HubOf(None) == ""
    ensures ModeOf(Some(Mesh(lead + mode + trail, lead + hub + trail))) == if mode == "" then "full-mesh" else mode
    ensures HubOf(Some(Mesh(lead + mode + trail, lead + hub + trail))) == ToLower(hub)
  {
    TrimAround(lead, mode, trail);
    TrimAround(lead, hub, trail);
  }

  /** Which raw sites are valid: a known mode, ids that are not blank and differ without regard to case
      and white space around them, and in a hub-spoke mesh a hub that is one of them. */
  lemma ValidMeans(mesh: Option<Mesh>, pops: seq<Pop>)
    ensures Valid(mesh, pops) <==>
              && (mesh.Some? ==> CanonicalMode(mesh.value.mode).Some?)
              && (forall i | 0 <= i < |pops| :: TrimSpace(pops[i].id) != "")
              && (forall i, j | 0 <= i < j < |pops| :: !EqualFold(TrimSpace(pops[i].id), TrimSpace(pops[j].id)))
              && (mesh.Some? && CanonicalMode(mesh.value.mode) == Some("hub-spoke") ==>
                    && TrimSpace(mesh.value.hubPop) != ""
                    && exists h :: 0 <= h < |pops| && EqualFold(TrimSpace(pops[h].id), TrimSpace(mesh.value.hubPop)))
  {
    BlankWhenClean(pops);
    if mesh.Some? {
      assert |ToLower(TrimSpace(mesh.value.hubPop))| == |TrimSpace(mesh.value.hubPop)|;
      assert HubOf(mesh) == "" <==> TrimSpace(mesh.value.hubPop) == "";
      assert forall h | 0 <= h < |pops| ::
          CleanId(pops[h].id) == HubOf(mesh) <==> EqualFold(TrimSpace(pops[h].id), TrimSpace(mesh.value.hubPop));
    }
  }

  lemma BlankWhenClean(pops: seq<Pop>)
    ensures forall i | 0 <= i < |pops| :: CleanId(pops[i].id) == "" <==> TrimSpace(pops[i].id) == ""
    ensures forall i, j | 0 <= i < j < |pops| ::
              CleanId(pops[i].id) == CleanId(pops[j].id) <==> EqualFold(TrimSpace(pops[i].id), TrimSpace(pops[j].id))
  {
    forall i | 0 <= i < |pops| ensures CleanId(pops[i].id) == "" <==> TrimSpace(pops[i].id) == "" {
      assert |ToLower(TrimSpace(pops[i].id))| == |TrimSpace(pops[i].id)|;
    }
  }
}
