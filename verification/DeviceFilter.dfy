/** Per-device access control: the permission map that user space edits, and the cgroup program that
  consults it on every attempt to open a device. */
module DeviceFilter {
  import opened Devices

  /** Key of the permission map. `ty` is the kernel's code for the device type. */
  datatype Key = Key(ty: bv32, major: U32, minor: U32)

  type Permissions = map<Key, bv32>

  const BLOCK_CODE: bv32 := 1
  const CHARACTER_CODE: bv32 := 2

  const MKNOD: bv32 := 1
  const READ: bv32 := 2
  const WRITE: bv32 := 4
  const ALL: bv32 := MKNOD | READ | WRITE

  const MAX_ENTRIES: nat := 256

  function TypeCode(ty: DeviceType): bv32 {
    match ty
    case Block => BLOCK_CODE
    case Character => CHARACTER_CODE
  }

  function KeyOf(node: DevNode): Key {
    Key(TypeCode(node.ty), node.major, node.minor)
  }

  // ----- User space -----

  /** Revoking removes an entry that must exist; granting overwrites, or inserts if there is room. */
  function Permit(perms: Permissions, key: Key, access: bv32): (Permissions, Result<()>) {
    if access == 0 then
      if key in perms then (perms - {key}, Ok(())) else (perms, Err(MissingKey))
    else if key in perms || |perms| < MAX_ENTRIES then (perms[key := access], Ok(()))
    else (perms, Err(MapFull))
  }

  class DeviceAccessController {
    var entries: Permissions
    var pinned: bool

    constructor ()
      ensures entries == map[] && pinned
    {
      entries := map[];
      pinned := true;
    }

    method SetPermission(ty: DeviceType, major: U32, minor: U32, access: bv32) returns (r: Result<()>)
      modifies this`entries
      ensures (entries, r) == Permit(old(entries), Key(TypeCode(ty), major, minor), access)
    {
      var key := Key(TypeCode(ty), major, minor);
      if access == 0 {
        if key !in entries {
          return Err(MissingKey);
        }
        entries := entries - {key};
      } else {
        if key !in entries && |entries| >= MAX_ENTRIES {
          return Err(MapFull);
        }
        entries := entries[key := access];
      }
      r := Ok(());
    }

    /** The destructor removes the pin; the attached program itself stays. */
    method Drop()
      modifies this`pinned
      ensures !pinned
    {
      pinned := false;
    }
  }

  // ----- The cgroup program -----

  /** The request word packs the access bits above the device type. */
  function Pack(access: bv32, ty: bv32): bv32 {
    (access << 16) | ty
  }

  lemma PackUnpack(access: bv32, ty: bv32)
    requires access <= 0xFFFF && ty <= 0xFFFF
    ensures Pack(access, ty) & 0xFFFF == ty
    ensures Pack(access, ty) >> 16 == access
  {
  }

  const DEV_NULL: Key := Key(CHARACTER_CODE, 1, 3)
  const DEV_ZERO: Key := Key(CHARACTER_CODE, 1, 5)
  const DEV_FULL: Key := Key(CHARACTER_CODE, 1, 7)
  const DEV_RANDOM: Key := Key(CHARACTER_CODE, 1, 8)
  const DEV_URANDOM: Key := Key(CHARACTER_CODE, 1, 9)
  const DEV_TTY: Key := Key(CHARACTER_CODE, 5, 0)
  const DEV_CONSOLE: Key := Key(CHARACTER_CODE, 5, 1)
  const DEV_PTMX: Key := Key(CHARACTER_CODE, 5, 2)
  const PSEUDO_PTY_MAJOR: U32 := 136

  /** Devices every container may use. */
  predicate IsDefault(dev: Key) {
    || dev in {DEV_NULL, DEV_ZERO, DEV_FULL, DEV_RANDOM, DEV_URANDOM}
    || dev in {DEV_TTY, DEV_CONSOLE, DEV_PTMX}
    || (dev.ty == CHARACTER_CODE && dev.major == PSEUDO_PTY_MAJOR)
  }

  function CheckDevice(perms: Permissions, accessType: bv32, major: U32, minor: U32): int {
    var dev := Key(accessType & 0xFFFF, major, minor);
    var access := accessType >> 16;
    if (dev.ty == BLOCK_CODE || dev.ty == CHARACTER_CODE) && access == MKNOD then 1
    else if IsDefault(dev) then 1
    else
      var perm :=
        if dev in perms then Some(perms[dev])
        else
          var fallback := Key(dev.ty, 0, 0);
          if fallback in perms then Some(perms[fallback]) else None;
      match perm
      case Some(bits) => if bits & access == access then 1 else 0
      case None => 0
  }

  // ----- What the program decides -----

  /** The map grants everything on the given nodes and nothing else. */
  ghost predicate GrantsExactly(perms: Permissions, nodes: set<DevNode>) {
    && (forall n | n in nodes :: KeyOf(n) in perms)
    && (forall k | k in perms :: perms[k] == ALL && exists n :: n in nodes && KeyOf(n) == k)
  }

  /** The node has this number, in the kernel's code for its type. */
  predicate Numbered(n: DevNode, ty: bv32, major: U32, minor: U32) {
    n.major == major && n.minor == minor && ty == (if n.ty.Block? then 1 else 2)
  }

  ghost predicate IsAttached(nodes: set<DevNode>, dev: Key) {
    exists n :: n in nodes && Numbered(n, dev.ty, dev.major, dev.minor)
  }

  lemma KeyIsNumber(n: DevNode, dev: Key)
    ensures KeyOf(n) == dev <==> Numbered(n, dev.ty, dev.major, dev.minor)
  {
  }

  /** The devices open to all by the kernel's numbers: null, zero, full, random and urandom; tty, console and
    ptmx; and the pseudo terminals. */
  predicate OpenToAll(ty: bv32, major: U32, minor: U32) {
    ty == 2 &&
    ((major, minor) in {(1, 3), (1, 5), (1, 7), (1, 8), (1, 9), (5, 0), (5, 1), (5, 2)} || major == 136)
  }

  /** The intended policy, in the kernel's numbers: creating a block (1) or character (2) node, access 1, is
    free; the devices above are open; and an attached device may be opened for any combination of the known
    access bits 1, 2 and 4. */
  ghost predicate Intended(nodes: set<DevNode>, accessType: bv32, major: U32, minor: U32) {
    var ty, access := accessType & 0xFFFF, accessType >> 16;
    || ((ty == 1 || ty == 2) && access == 1)
    || OpenToAll(ty, major, minor)
    || (access <= 7 && exists n :: n in nodes && Numbered(n, ty, major, minor))
  }

  /** With an empty map the program allows creating nodes and using the devices open to all, nothing else. */
  lemma EmptyMapDecides(accessType: bv32, major: U32, minor: U32)
    ensures CheckDevice(map[], accessType, major, minor) == 1 <==>
            || ((accessType & 0xFFFF == 1 || accessType & 0xFFFF == 2) && accessType >> 16 == 1)
            || OpenToAll(accessType & 0xFFFF, major, minor)
  {
  }

  lemma KnownBits(access: bv32)
    ensures ALL & access == access <==> access <= 7
  {
  }

  predicate IsFallback(n: DevNode) {
    n.major == 0 && n.minor == 0
  }

  /** Without a node numbered (0, 0), the program decides every request as intended. */
  lemma DecisionExact(perms: Permissions, nodes: set<DevNode>, accessType: bv32, major: U32, minor: U32)
    requires GrantsExactly(perms, nodes)
    requires forall n | n in nodes :: !IsFallback(n)
    ensures CheckDevice(perms, accessType, major, minor) in {0, 1}
    ensures CheckDevice(perms, accessType, major, minor) == 1 <==> Intended(nodes, accessType, major, minor)
  {
    var dev := Key(accessType & 0xFFFF, major, minor);
    KnownBits(accessType >> 16);
    assert Key(dev.ty, 0, 0) !in perms;
    assert dev in perms <==> IsAttached(nodes, dev);
  }

  /** A node numbered (0, 0) opens every other device of its type. */
  lemma FallbackOpens(perms: Permissions, nodes: set<DevNode>, n: DevNode, access: bv32, major: U32, minor: U32)
    requires GrantsExactly(perms, nodes) && n in nodes && IsFallback(n)
    requires access <= 0xFFFF
    ensures CheckDevice(perms, Pack(access, TypeCode(n.ty)), major, minor) == 1 <==>
            access <= 7 || IsDefault(Key(TypeCode(n.ty), major, minor))
  {
    PackUnpack(access, TypeCode(n.ty));
    KnownBits(access);
    assert KeyOf(n) == Key(TypeCode(n.ty), 0, 0);
  }

  // ----- Exactly when all requests are decided as intended -----

  ghost predicate Decides(perms: Permissions, nodes: set<DevNode>) {
    forall w: bv32, major: U32, minor: U32 ::
      CheckDevice(perms, w, major, minor) == 1 <==> Intended(nodes, w, major, minor)
  }

  /** Every entry is a full one for one of the nodes; a node may be without an entry. */
  ghost predicate GrantsWithin(perms: Permissions, nodes: set<DevNode>) {
    forall k | k in perms :: perms[k] == ALL && IsAttached(nodes, k)
  }

  function FallbackKey(ty: DeviceType): Key {
    Key(TypeCode(ty), 0, 0)
  }

  /** Some device number of the type is neither a default nor that of a node. */
  ghost predicate Spare(nodes: set<DevNode>, ty: DeviceType) {
    exists major: U32, minor: U32 :: IsSpare(nodes, Key(TypeCode(ty), major, minor))
  }

  ghost predicate IsSpare(nodes: set<DevNode>, dev: Key) {
    !IsDefault(dev) && !IsAttached(nodes, dev)
  }

  lemma RequestDecided(perms: Permissions, nodes: set<DevNode>, accessType: bv32, major: U32, minor: U32)
    requires GrantsWithin(perms, nodes)
    ensures var dev := Key(accessType & 0xFFFF, major, minor);
            var access := accessType >> 16;
            CheckDevice(perms, accessType, major, minor) == 1 <==>
            || ((dev.ty == BLOCK_CODE || dev.ty == CHARACTER_CODE) && access == MKNOD)
            || IsDefault(dev)
            || (access <= 7 && (dev in perms || Key(dev.ty, 0, 0) in perms))
  {
    KnownBits(accessType >> 16);
  }

  /** A read of a device that is not a default one. */
  lemma ReadDecided(perms: Permissions, nodes: set<DevNode>, ty: DeviceType, major: U32, minor: U32)
    requires GrantsWithin(perms, nodes) && !IsDefault(Key(TypeCode(ty), major, minor))
    ensures CheckDevice(perms, Pack(READ, TypeCode(ty)), major, minor) == 1 <==>
            Key(TypeCode(ty), major, minor) in perms || FallbackKey(ty) in perms
    ensures Intended(nodes, Pack(READ, TypeCode(ty)), major, minor) <==>
            IsAttached(nodes, Key(TypeCode(ty), major, minor))
  {
    PackUnpack(READ, TypeCode(ty));
    RequestDecided(perms, nodes, Pack(READ, TypeCode(ty)), major, minor);
  }

  /** Each node is open, by default, by its own entry or by the fallback, and a fallback entry opens nothing
    that is not a node. */
  ghost predicate Sound(perms: Permissions, nodes: set<DevNode>) {
    && (forall n | n in nodes :: IsDefault(KeyOf(n)) || KeyOf(n) in perms || FallbackKey(n.ty) in perms)
    && (forall n | n in nodes && IsFallback(n) && KeyOf(n) in perms :: !Spare(nodes, n.ty))
  }

  lemma SoundDecides(perms: Permissions, nodes: set<DevNode>, w: bv32, major: U32, minor: U32)
    requires GrantsWithin(perms, nodes) && Sound(perms, nodes)
    ensures CheckDevice(perms, w, major, minor) == 1 <==> Intended(nodes, w, major, minor)
  {
    var dev := Key(w & 0xFFFF, major, minor);
    RequestDecided(perms, nodes, w, major, minor);
    if !IsDefault(dev) {
      if Key(dev.ty, 0, 0) in perms {
        var n :| n in nodes && KeyOf(n) == Key(dev.ty, 0, 0);
        assert !Spare(nodes, n.ty);
        assert !IsSpare(nodes, Key(TypeCode(n.ty), major, minor));
      } else if n :| n in nodes && KeyOf(n) == dev {
        assert FallbackKey(n.ty) == Key(dev.ty, 0, 0);
      }
    }
  }

  lemma UnsoundFails(perms: Permissions, nodes: set<DevNode>)
    requires GrantsWithin(perms, nodes) && Decides(perms, nodes)
    ensures Sound(perms, nodes)
  {
    forall n | n in nodes ensures IsDefault(KeyOf(n)) || KeyOf(n) in perms || FallbackKey(n.ty) in perms {
      if !IsDefault(KeyOf(n)) {
        ReadDecided(perms, nodes, n.ty, n.major, n.minor);
      }
    }
    forall n | n in nodes && IsFallback(n) && KeyOf(n) in perms ensures !Spare(nodes, n.ty) {
      forall major: U32, minor: U32 ensures !IsSpare(nodes, Key(TypeCode(n.ty), major, minor)) {
        if !IsDefault(Key(TypeCode(n.ty), major, minor)) {
          ReadDecided(perms, nodes, n.ty, major, minor);
        }
      }
    }
  }

  /** For any map whose entries are full ones for the nodes: all requests are decided as intended if and only
    if each node is open and no fallback entry opens anything else. */
  lemma DecidesIff(perms: Permissions, nodes: set<DevNode>)
    requires GrantsWithin(perms, nodes)
    ensures Decides(perms, nodes) <==> Sound(perms, nodes)
  {
    if Sound(perms, nodes) {
      forall w: bv32, major: U32, minor: U32
        ensures CheckDevice(perms, w, major, minor) == 1 <==> Intended(nodes, w, major, minor)
      {
        SoundDecides(perms, nodes, w, major, minor);
      }
    }
    if Decides(perms, nodes) {
      UnsoundFails(perms, nodes);
    }
  }

  /** As long as not all device numbers of a type are taken: if and only if no node is numbered (0, 0) and each
    is a default device or has its entry. */
  lemma DecidesSimply(perms: Permissions, nodes: set<DevNode>)
    requires GrantsWithin(perms, nodes) && Spare(nodes, Block) && Spare(nodes, Character)
    ensures Decides(perms, nodes) <==>
            forall n | n in nodes :: !IsFallback(n) && (IsDefault(KeyOf(n)) || KeyOf(n) in perms)
  {
    DecidesIff(perms, nodes);
    forall n | n in nodes ensures Spare(nodes, n.ty) {
      assert n.ty == Block || n.ty == Character;
    }
    if Sound(perms, nodes) {
      forall n | n in nodes ensures !IsFallback(n) && (IsDefault(KeyOf(n)) || KeyOf(n) in perms) {
        NoFallbackEntry(perms, nodes, n.ty);
      }
    }
  }

  lemma NoFallbackEntry(perms: Permissions, nodes: set<DevNode>, ty: DeviceType)
    requires GrantsWithin(perms, nodes) && Sound(perms, nodes) && Spare(nodes, ty)
    ensures FallbackKey(ty) !in perms
  {
    if FallbackKey(ty) in perms {
      var n :| n in nodes && KeyOf(n) == FallbackKey(ty);
      assert n.ty == ty && IsFallback(n);
      assert false;
    }
  }

  // ----- Device numbers do not run out -----

  lemma {:induction false} UnusedMajor(keys: set<Key>, ty: bv32, n: nat) returns (major: U32)
    requires |keys| < n <= U32_LIMIT - 1000
    ensures 1000 <= major < 1000 + n && Key(ty, major, 0) !in keys
    decreases n
  {
    var last: U32 := 1000 + n - 1;
    if Key(ty, last, 0) !in keys {
      major := last;
    } else {
      major := UnusedMajor(keys - {Key(ty, last, 0)}, ty, n - 1);
    }
  }

  lemma SpareKey(nodes: set<DevNode>, keys: set<Key>, ty: DeviceType)
    requires (forall n | n in nodes :: KeyOf(n) in keys) && |keys| < U32_LIMIT - 1000
    ensures Spare(nodes, ty)
  {
    var major := UnusedMajor(keys, TypeCode(ty), |keys| + 1);
    assert IsSpare(nodes, Key(TypeCode(ty), major, 0));
  }

  function KeysOf(nodes: set<DevNode>): set<Key> {
    set n | n in nodes :: KeyOf(n)
  }

  lemma {:induction false} FewKeys(nodes: set<DevNode>)
    ensures |KeysOf(nodes)| <= |nodes|
    decreases |nodes|
  {
    if n :| n in nodes {
      FewKeys(nodes - {n});
      assert KeysOf(nodes) == KeysOf(nodes - {n}) + {KeyOf(n)};
    } else {
      assert KeysOf(nodes) == {};
    }
  }

  /** Fewer than about four billion nodes leave numbers of every type. */
  lemma SpareNumber(nodes: set<DevNode>, ty: DeviceType)
    requires |nodes| < U32_LIMIT - 1000
    ensures Spare(nodes, ty)
  {
    FewKeys(nodes);
    SpareKey(nodes, KeysOf(nodes), ty);
  }

  /** With an entry for every node, the policy is met on all requests exactly when no node is numbered
    (0, 0). */
  lemma PolicyHoldsIff(perms: Permissions, nodes: set<DevNode>)
    requires GrantsExactly(perms, nodes) && |perms| <= MAX_ENTRIES
    ensures Decides(perms, nodes) <==> (forall n | n in nodes :: !IsFallback(n))
  {
    assert |perms.Keys| == |perms|;
    SpareKey(nodes, perms.Keys, Block);
    SpareKey(nodes, perms.Keys, Character);
    DecidesSimply(perms, nodes);
  }
}
