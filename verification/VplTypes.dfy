// Plain data shared by every part of the dispatcher model: status codes, numeric
// widths, and the capability structures a runtime reports about itself.
module VplTypes {
  datatype Option<+T> = None | Some(value: T)

  type u16 = n: int | 0 <= n < 0x1_0000
  type u32 = n: int | 0 <= n < 0x1_0000_0000

  // An eight-byte array, such as a LUID.
  type Bytes8 = b: seq<int> | |b| == 8 witness [0, 0, 0, 0, 0, 0, 0, 0]

  // The status codes the dispatcher itself produces.
  datatype Status =
    | ErrNone
    | ErrNullPtr
    | ErrUnsupported
    | ErrInvalidHandle
    | ErrNotFound
    | ErrInvalidVideoParam

  datatype LibType = LibTypeUnknown | LibTypeVPL | LibTypeMSDK

  datatype Range32U = Range32U(min: u32, max: u32, step: u32)

  // mfxVersion: two 16-bit halves that can also be read as one 32-bit number.
  datatype Version = Version(major: u16, minor: u16) {
    function Number(): u32 { major * 0x1_0000 + minor }
  }

  function VersionOf(n: u32): Version { Version(n / 0x1_0000, n % 0x1_0000) }

  const IMPL_TYPE_HARDWARE: u32 := 2
  const ACCEL_MODE_VIA_D3D9: u32 := 0x0200
  const ACCEL_MODE_VIA_HDDLUNITE: u32 := 0x0500
  const VENDOR_INTEL: u32 := 0x8086
  const UNKNOWN_ID: u32 := 0xFFFF_FFFF

  // A capability tree has three levels of headed nodes above its leaves:
  //   decoder and encoder: codec > profile > memory type > colour format
  //   VPP:                 filter > memory type > input format > output format
  datatype Node<A, C> = Node(info: A, kids: seq<C>)
  type Tree<A, B, C, D> = seq<Node<A, Node<B, Node<C, D>>>>

  // One root-to-leaf path, i.e. one entry of a flattened description.
  datatype Leaf<A, B, C, D> = Leaf(a: A, b: B, c: C, d: D)

  datatype DecCodec = DecCodec(codecID: u32, maxcodecLevel: u16)
  datatype EncCodec = EncCodec(codecID: u32, maxcodecLevel: u16, biDirectionalPrediction: u16)
  datatype VPPFilter = VPPFilter(filterFourCC: u32, maxDelayInFrames: u16)
  datatype MemDesc = MemDesc(memHandleType: u32, width: Range32U, height: Range32U)

  type DecTree = Tree<DecCodec, u32, MemDesc, u32>
  type EncTree = Tree<EncCodec, u32, MemDesc, u32>
  type VPPTree = Tree<VPPFilter, MemDesc, u32, u32>
  type DecLeaf = Leaf<DecCodec, u32, MemDesc, u32>
  type EncLeaf = Leaf<EncCodec, u32, MemDesc, u32>
  type VPPLeaf = Leaf<VPPFilter, MemDesc, u32, u32>

  datatype DeviceDesc = DeviceDesc(version: u16, mediaAdapterType: u16, deviceID: string)

  datatype ImplDesc = ImplDesc(
    structVersion: u16,
    impl: u32,
    accelerationMode: u32,
    apiVersion: Version,
    implName: string,
    license: string,
    keywords: string,
    vendorID: u32,
    vendorImplID: u32,
    dev: DeviceDesc,
    dec: DecTree,
    enc: EncTree,
    vpp: VPPTree,
    accelerationModes: seq<u32>,
    poolPolicies: seq<u32>)

  datatype ExtDeviceID = ExtDeviceID(
    vendorID: u16,
    deviceID: u16,
    pciDomain: u32,
    pciBus: u32,
    pciDevice: u32,
    pciFunction: u32,
    deviceLUID: Bytes8,
    luidDeviceNodeMask: u32,
    luidValid: bool,
    drmRenderNodeNum: u32,
    drmPrimaryNodeNum: u32,
    revisionID: u16,
    deviceName: string)
}
