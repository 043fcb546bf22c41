/**
 * The selection rules of the Vulkan renderer (src/systems/rendering/Vulkan.cpp): which surface
 * format, present mode, extent and image count the swapchain asks for, which memory type a
 * buffer gets, which queue families are used and how the swapchain images are shared, whether a
 * device has the required extensions, and the index buffer of the profiling overlay. What the
 * Vulkan driver reports (surface capabilities, format and mode lists, queue families, memory
 * types, extension names) is given as parameters.
 */
module Vulkan {
  import opened Wrappers

  const UINT32_MAX: nat := 0xFFFF_FFFF

  // ------------------------------------------------------------ surface format

  /** VkFormat and VkColorSpaceKHR values used by the renderer. */
  const FORMAT_UNDEFINED: nat := 0
  const FORMAT_R8G8B8A8_UNORM: nat := 37
  const COLOR_SPACE_SRGB_NONLINEAR: nat := 0

  datatype SurfaceFormat = SurfaceFormat(format: nat, colorSpace: nat)

  /** The format the renderer prefers. */
  const PREFERRED_FORMAT := SurfaceFormat(FORMAT_R8G8B8A8_UNORM, COLOR_SPACE_SRGB_NONLINEAR)

  /**
   * choose_swap_surface_format (lines 392-409): a lone UNDEFINED entry means any format will
   * do, and the preferred one is taken; otherwise the preferred pair when the surface lists
   * it, else the first listed format. The caller only asks for a device that lists at least
   * one format (line 209).
   */
  method ChooseSwapSurfaceFormat(formats: seq<SurfaceFormat>) returns (chosen: SurfaceFormat)
    requires |formats| > 0
    ensures |formats| == 1 && formats[0].format == FORMAT_UNDEFINED ==> chosen == PREFERRED_FORMAT
    ensures !(|formats| == 1 && formats[0].format == FORMAT_UNDEFINED) ==>
              chosen == if PREFERRED_FORMAT in formats then PREFERRED_FORMAT else formats[0]
    ensures chosen == PREFERRED_FORMAT || chosen in formats
  {
    if |formats| == 1 && formats[0].format == FORMAT_UNDEFINED {
      return PREFERRED_FORMAT;
    }
    var i := 0;
    while i < |formats|
      invariant 0 <= i <= |formats| && PREFERRED_FORMAT !in formats[..i]
    {
      if formats[i].format == FORMAT_R8G8B8A8_UNORM && formats[i].colorSpace == COLOR_SPACE_SRGB_NONLINEAR {
        return formats[i];
      }
      assert formats[..i + 1] == formats[..i] + [formats[i]];
      i := i + 1;
    }
    assert formats[..i] == formats;
    return formats[0];
  }

  // ------------------------------------------------------------ present mode

  /** VkPresentModeKHR values. */
  const PRESENT_MODE_IMMEDIATE: nat := 0
  const PRESENT_MODE_MAILBOX: nat := 1
  const PRESENT_MODE_FIFO: nat := 2
  const PRESENT_MODE_FIFO_RELAXED: nat := 3

  /** choose_swap_present_mode (lines 411-423): MAILBOX when the surface offers it, FIFO otherwise. */
  method ChooseSwapPresentMode(modes: seq<nat>) returns (mode: nat)
    ensures mode == PRESENT_MODE_MAILBOX <==> PRESENT_MODE_MAILBOX in modes
    ensures mode == PRESENT_MODE_MAILBOX || mode == PRESENT_MODE_FIFO
  {
    var i := 0;
    while i < |modes|
      invariant 0 <= i <= |modes| && PRESENT_MODE_MAILBOX !in modes[..i]
    {
      if modes[i] == PRESENT_MODE_MAILBOX {
        return modes[i];
      }
      assert modes[..i + 1] == modes[..i] + [modes[i]];
      i := i + 1;
    }
    assert modes[..i] == modes;
    return PRESENT_MODE_FIFO;
  }

  // ------------------------------------------------------------ extent and image count

  datatype Extent = Extent(width: nat, height: nat)

  /** The fields of VkSurfaceCapabilitiesKHR the renderer reads. */
  datatype SurfaceCapabilities = SurfaceCapabilities(
    minImageCount: nat, maxImageCount: nat,
    currentExtent: Extent, minImageExtent: Extent, maxImageExtent: Extent)

  function Max(a: nat, b: nat): nat { if a < b then b else a }
  function Min(a: nat, b: nat): nat { if a < b then a else b }

  /**
   * choose_swap_extent (lines 425-441): the surface's current extent, unless its width is
   * 0xFFFFFFFF ("the swapchain decides"); then the window size, each axis raised to the
   * minimum after being lowered to the maximum.
   */
  function ChooseSwapExtent(caps: SurfaceCapabilities, window: Extent): (extent: Extent)
    ensures caps.currentExtent.width != UINT32_MAX ==> extent == caps.currentExtent
    ensures caps.currentExtent.width == UINT32_MAX ==>
              && caps.minImageExtent.width <= extent.width && caps.minImageExtent.height <= extent.height
              && (caps.minImageExtent.width <= caps.maxImageExtent.width ==> extent.width <= caps.maxImageExtent.width)
              && (caps.minImageExtent.height <= caps.maxImageExtent.height ==> extent.height <= caps.maxImageExtent.height)
              && (caps.minImageExtent.width <= window.width <= caps.maxImageExtent.width ==> extent.width == window.width)
              && (caps.minImageExtent.height <= window.height <= caps.maxImageExtent.height ==> extent.height == window.height)
  {
    if caps.currentExtent.width != UINT32_MAX then caps.currentExtent
    else Extent(Max(caps.minImageExtent.width, Min(caps.maxImageExtent.width, window.width)),
                Max(caps.minImageExtent.height, Min(caps.maxImageExtent.height, window.height)))
  }

  /**
   * The image count create_swapchain asks for, as written (lines 312-317): one more than the
   * minimum (a uint32 sum), lowered to the maximum when the MINIMUM is non-zero and the sum
   * exceeds the maximum.
   */
  function ImagesAsWritten(caps: SurfaceCapabilities): nat
  {
    if caps.minImageCount == 0 then 1 else Min((caps.minImageCount + 1) % (UINT32_MAX + 1), caps.maxImageCount)
  }

  /** The local update of lines 312-317 as it stands. */
  method ImageCountAsWritten(caps: SurfaceCapabilities) returns (numImages: nat)
    requires caps.minImageCount <= UINT32_MAX && caps.maxImageCount <= UINT32_MAX
    ensures numImages == ImagesAsWritten(caps)
  {
    numImages := (caps.minImageCount + 1) % (UINT32_MAX + 1);
    if caps.minImageCount > 0 && numImages > caps.maxImageCount {
      numImages := caps.maxImageCount;
    }
  }

  /**
   * A maximum of 0 means "no limit", but the guard tests the minimum: a surface reporting
   * minImageCount 2 and maxImageCount 0 gets a request for 0 images, below its minimum.
   */
  lemma NoLimitGivesNoImages()
    ensures ImagesAsWritten(SurfaceCapabilities(2, 0, Extent(0, 0), Extent(0, 0), Extent(0, 0))) == 0
  {
  }

  /** The rule with the guard on the maximum, where "no limit" lives. */
  function ImagesIntended(caps: SurfaceCapabilities): nat
  {
    var n := (caps.minImageCount + 1) % (UINT32_MAX + 1);
    if caps.maxImageCount == 0 then n else Min(n, caps.maxImageCount)
  }

  /**
   * With the guard on the maximum, the request is never below the surface's minimum nor
   * above a maximum it reports, and is one above the minimum when that fits.
   */
  lemma ImagesWithinLimits(caps: SurfaceCapabilities)
    requires caps.minImageCount < UINT32_MAX
    requires caps.maxImageCount == 0 || caps.minImageCount <= caps.maxImageCount
    ensures caps.minImageCount <= ImagesIntended(caps)
    ensures caps.maxImageCount > 0 ==> ImagesIntended(caps) <= caps.maxImageCount
    ensures (caps.maxImageCount == 0 || caps.minImageCount < caps.maxImageCount) ==> ImagesIntended(caps) == caps.minImageCount + 1
  {
  }

  /** The image count with the guard on the maximum; create_swapchain below uses this one. */
  method ImageCount(caps: SurfaceCapabilities) returns (numImages: nat)
    requires caps.minImageCount <= UINT32_MAX && caps.maxImageCount <= UINT32_MAX
    ensures numImages == ImagesIntended(caps)
  {
    numImages := (caps.minImageCount + 1) % (UINT32_MAX + 1);
    if caps.maxImageCount > 0 && numImages > caps.maxImageCount {
      numImages := caps.maxImageCount;
    }
  }

  // ------------------------------------------------------------ queue families

  const QUEUE_GRAPHICS_BIT: bv32 := 1

  /** The fields of VkQueueFamilyProperties the renderer reads. */
  datatype QueueFamily = QueueFamily(queueCount: nat, queueFlags: bv32)

  /** queue_family_indices_t (Vulkan.h:44-53): -1 until a family is found. */
  datatype QueueFamilyIndices = QueueFamilyIndices(graphics: int, present: int)
  {
    predicate IsComplete()
    {
      graphics >= 0 && present >= 0
    }
  }

  predicate GraphicsFamily(family: QueueFamily)
  {
    family.queueCount > 0 && family.queueFlags & QUEUE_GRAPHICS_BIT != 0
  }

  /** A family with queues that vkGetPhysicalDeviceSurfaceSupportKHR says can present. */
  predicate PresentFamily(family: QueueFamily, presentSupport: bool)
  {
    family.queueCount > 0 && presentSupport
  }

  /** Some family up to index k (inclusive) has graphics queues. */
  predicate GraphicsBy(families: seq<QueueFamily>, k: int)
  {
    exists i :: 0 <= i <= k && i < |families| && GraphicsFamily(families[i])
  }

  /** Some family up to index k (inclusive) can present. */
  predicate PresentBy(families: seq<QueueFamily>, support: seq<bool>, k: int)
    requires |support| == |families|
  {
    exists i :: 0 <= i <= k && i < |families| && PresentFamily(families[i], support[i])
  }

  /**
   * find_queue_families (lines 215-246): every family is inspected in order, a graphics or
   * present family found overwrites the index found before, and the search stops at the
   * first index where both have been found. So the indices are complete exactly when the
   * device has both kinds; the later of the two is the first index where both have been
   * seen; and each is the last family of its kind up to there.
   */
  method FindQueueFamilies(families: seq<QueueFamily>, support: seq<bool>) returns (indices: QueueFamilyIndices)
    requires |support| == |families|
    ensures indices.graphics == -1 || (0 <= indices.graphics < |families| && GraphicsFamily(families[indices.graphics]))
    ensures indices.present == -1 || (0 <= indices.present < |families| && PresentFamily(families[indices.present], support[indices.present]))
    ensures indices.IsComplete() <==> GraphicsBy(families, |families|) && PresentBy(families, support, |families|)
    ensures indices.IsComplete() ==>
              var stop := if indices.graphics < indices.present then indices.present else indices.graphics;
              && (forall k :: 0 <= k < stop ==> !(GraphicsBy(families, k) && PresentBy(families, support, k)))
              && (forall i :: indices.graphics < i <= stop ==> !GraphicsFamily(families[i]))
              && (forall i :: indices.present < i <= stop ==> !PresentFamily(families[i], support[i]))
  {
    indices := QueueFamilyIndices(-1, -1);
    var i := 0;
    while i < |families|
      invariant 0 <= i <= |families|
      invariant indices.graphics == -1 || (0 <= indices.graphics < i && GraphicsFamily(families[indices.graphics]))
      invariant indices.present == -1 || (0 <= indices.present < i && PresentFamily(families[indices.present], support[indices.present]))
      invariant indices.graphics == -1 <==> !GraphicsBy(families, i - 1)
      invariant indices.present == -1 <==> !PresentBy(families, support, i - 1)
      invariant forall j :: indices.graphics < j < i ==> !GraphicsFamily(families[j])
      invariant forall j :: indices.present < j < i ==> !PresentFamily(families[j], support[j])
      invariant !indices.IsComplete()
      invariant forall k :: 0 <= k < i ==> !(GraphicsBy(families, k) && PresentBy(families, support, k))
    {
      if GraphicsFamily(families[i]) {
        indices := indices.(graphics := i);
      }
      if PresentFamily(families[i], support[i]) {
        indices := indices.(present := i);
      }
      if indices.IsComplete() {
        return;
      }
      i := i + 1;
    }
  }

  // ------------------------------------------------------------ sharing and queue creation

  /** VkSharingMode values. */
  const SHARING_MODE_EXCLUSIVE: nat := 0
  const SHARING_MODE_CONCURRENT: nat := 1

  datatype Sharing = Sharing(mode: nat, familyIndices: seq<nat>)

  /**
   * The sharing rule of create_swapchain (lines 329-346): images are shared concurrently
   * between the graphics and the present family when they differ, and owned exclusively,
   * with no family list, when they are the same.
   */
  function ImageSharing(indices: QueueFamilyIndices): (sharing: Sharing)
    requires indices.IsComplete()
    ensures sharing.mode == SHARING_MODE_CONCURRENT <==> indices.graphics != indices.present
    ensures sharing.mode == SHARING_MODE_CONCURRENT || sharing.mode == SHARING_MODE_EXCLUSIVE
    ensures sharing.mode == SHARING_MODE_EXCLUSIVE <==> |sharing.familyIndices| == 0
  {
    if indices.graphics != indices.present then
      Sharing(SHARING_MODE_CONCURRENT, [indices.graphics as nat, indices.present as nat])
    else
      Sharing(SHARING_MODE_EXCLUSIVE, [])
  }

  /** What create_logical_device fills into each VkDeviceQueueCreateInfo. */
  datatype QueueCreateInfo = QueueCreateInfo(queueFamilyIndex: int, queueCount: nat)

  /** std::set<int32_t>{graphics, present}, in the set's ascending order. */
  function UniqueFamilies(indices: QueueFamilyIndices): (families: seq<int>)
    ensures forall k :: 0 <= k < |families| ==> families[k] == indices.graphics || families[k] == indices.present
    ensures indices.graphics in families && indices.present in families
    ensures forall k, l :: 0 <= k < l < |families| ==> families[k] < families[l]
  {
    if indices.graphics == indices.present then [indices.graphics]
    else if indices.graphics < indices.present then [indices.graphics, indices.present]
    else [indices.present, indices.graphics]
  }

  /**
   * The loop of create_logical_device (lines 268-283): one create-info with one queue for
   * each distinct family, in ascending order.
   */
  method QueueCreateInfos(indices: QueueFamilyIndices) returns (infos: seq<QueueCreateInfo>)
    ensures forall k :: 0 <= k < |infos| ==> infos[k].queueCount == 1
    ensures forall k :: 0 <= k < |infos| ==> infos[k].queueFamilyIndex == indices.graphics || infos[k].queueFamilyIndex == indices.present
    ensures exists k :: 0 <= k < |infos| && infos[k].queueFamilyIndex == indices.graphics
    ensures exists k :: 0 <= k < |infos| && infos[k].queueFamilyIndex == indices.present
    ensures forall k, l :: 0 <= k < l < |infos| ==> infos[k].queueFamilyIndex < infos[l].queueFamilyIndex
    ensures |infos| == if indices.graphics == indices.present then 1 else 2
  {
    var families := UniqueFamilies(indices);
    infos := [];
    var k := 0;
    while k < |families|
      invariant 0 <= k <= |families| && |infos| == k
      invariant forall j :: 0 <= j < k ==> infos[j] == QueueCreateInfo(families[j], 1)
    {
      infos := infos + [QueueCreateInfo(families[k], 1)];
      k := k + 1;
    }
    var g :| 0 <= g < |families| && families[g] == indices.graphics;
    var p :| 0 <= p < |families| && families[p] == indices.present;
    assert infos[g].queueFamilyIndex == indices.graphics && infos[p].queueFamilyIndex == indices.present;
  }

  /** Concurrent sharing goes with two device queues, exclusive ownership with one. */
  lemma SharingMatchesQueues(indices: QueueFamilyIndices)
    requires indices.IsComplete()
    ensures ImageSharing(indices).mode == SHARING_MODE_CONCURRENT <==> |UniqueFamilies(indices)| == 2
    ensures ImageSharing(indices).familyIndices == [] || multiset(ImageSharing(indices).familyIndices) == multiset(UniqueFamilies(indices))
  {
  }

  // ------------------------------------------------------------ memory types and extensions

  /** The memory types a device reports: their property flags, at most VK_MAX_MEMORY_TYPES of them. */
  const MAX_MEMORY_TYPES: nat := 32

  /** Memory type i may back the resource and has every requested property. */
  predicate Suitable(typeFilter: bv32, typeFlags: seq<bv32>, properties: bv32, i: nat)
    requires i < |typeFlags| <= MAX_MEMORY_TYPES
  {
    typeFilter & (1 << i) != 0 && typeFlags[i] & properties == properties
  }

  /**
   * find_memory_type (lines 1034-1046): the lowest suitable memory type. Without one the
   * source reaches assert(false) and falls off the end; that case is None here.
   */
  method FindMemoryType(typeFilter: bv32, typeFlags: seq<bv32>, properties: bv32) returns (r: Option<nat>)
    requires |typeFlags| <= MAX_MEMORY_TYPES
    ensures r.Some? ==> r.value < |typeFlags| && Suitable(typeFilter, typeFlags, properties, r.value)
    ensures r.Some? ==> forall j :: 0 <= j < r.value ==> !Suitable(typeFilter, typeFlags, properties, j)
    ensures r.None? <==> forall j :: 0 <= j < |typeFlags| ==> !Suitable(typeFilter, typeFlags, properties, j)
  {
    var i := 0;
    while i < |typeFlags|
      invariant 0 <= i <= |typeFlags|
      invariant forall j :: 0 <= j < i ==> !Suitable(typeFilter, typeFlags, properties, j)
    {
      if typeFilter & (1 << i) != 0 && typeFlags[i] & properties == properties {
        assert Suitable(typeFilter, typeFlags, properties, i);
        return Some(i);
      }
      i := i + 1;
    }
    return None;
  }

  /** device_extensions (lines 69-71). */
  const DEVICE_EXTENSIONS: seq<string> := ["VK_KHR_swapchain"]

  /**
   * check_device_extension_support (lines 250-265): the required names go into a set, every
   * available name is erased from it, and the device passes when nothing is left; that is,
   * exactly when every required name is available.
   */
  method CheckDeviceExtensionSupport(available: seq<string>, required: seq<string>) returns (supported: bool)
    ensures supported <==> forall name :: name in required ==> name in available
  {
    var remaining := set name | name in required;
    var i := 0;
    while i < |available|
      invariant 0 <= i <= |available|
      invariant remaining == (set name | name in required) - (set name | name in available[..i])
    {
      remaining := remaining - {available[i]};
      assert available[..i + 1] == available[..i] + [available[i]];
      i := i + 1;
    }
    assert available[..i] == available;
    supported := remaining == {};
    if supported {
      forall name | name in required
        ensures name in available
      {
        assert name !in remaining;
      }
    } else {
      var name :| name in remaining;
      assert name in required && name !in available;
    }
  }

  // ------------------------------------------------------------ the overlay index buffer

  /** indices[] (lines 80-83): the two triangles of one quad. */
  const QUAD_INDICES: seq<nat> := [0, 1, 2, 2, 3, 0]

  /** num_overlay_vertices and num_overlay_indices (lines 86-88): room for 1024 quads. */
  const OVERLAY_QUADS: nat := 1024
  const OVERLAY_VERTICES: nat := 4 * OVERLAY_QUADS
  const OVERLAY_INDICES: nat := OVERLAY_VERTICES / 4 * 6

  /** Index k of the overlay buffer: the quad pattern shifted to quad k / 6's vertices. */
  function OverlayIndex(k: nat): nat
    requires k < OVERLAY_INDICES
  {
    4 * (k / 6) + QUAD_INDICES[k % 6]
  }

  /** Every overlay index names one of the overlay's vertices, and each quad uses its own four. */
  lemma OverlayIndicesInRange(k: nat)
    requires k < OVERLAY_INDICES
    ensures OverlayIndex(k) < OVERLAY_VERTICES
    ensures 4 * (k / 6) <= OverlayIndex(k) < 4 * (k / 6) + 4
  {
  }

  /**
   * The fill loop of create_index_buffer (lines 856-865): quad i gets
   * [4i, 4i+1, 4i+2, 4i+2, 4i+3, 4i].
   */
  method OverlayIndices() returns (indices: array<nat>)
    ensures fresh(indices) && indices.Length == OVERLAY_INDICES
    ensures forall k :: 0 <= k < OVERLAY_INDICES ==> indices[k] == OverlayIndex(k)
  {
    indices := new nat[OVERLAY_INDICES];
    var i := 0;
    while i < OVERLAY_VERTICES / 4
      invariant 0 <= i <= OVERLAY_QUADS
      invariant forall k :: 0 <= k < 6 * i ==> indices[k] == OverlayIndex(k)
    {
      FillQuad(indices, i);
      QuadIndices(indices[..], i);
      assert 6 * (i + 1) == 6 * i + 6;
      i := i + 1;
    }
  }

  /** One pass of the fill loop: the six entries of quad i, and no others. */
  method FillQuad(indices: array<nat>, i: nat)
    requires indices.Length == OVERLAY_INDICES && i < OVERLAY_QUADS
    modifies indices
    ensures forall t :: 0 <= t < 6 ==> indices[6 * i + t] == 4 * i + QUAD_INDICES[t]
    ensures forall k :: 0 <= k < OVERLAY_INDICES && (k < 6 * i || 6 * i + 6 <= k) ==> indices[k] == old(indices[k])
  {
    indices[i * 6 + 0] := i * 4 + 0;
    indices[i * 6 + 1] := i * 4 + 1;
    indices[i * 6 + 2] := i * 4 + 2;
    indices[i * 6 + 3] := i * 4 + 2;
    indices[i * 6 + 4] := i * 4 + 3;
    indices[i * 6 + 5] := i * 4 + 0;
  }

  /** Entries written by the pattern of quad i are OverlayIndex of their positions. */
  lemma QuadIndices(a: seq<nat>, i: nat)
    requires |a| == OVERLAY_INDICES && i < OVERLAY_QUADS
    requires forall t :: 0 <= t < 6 ==> a[6 * i + t] == 4 * i + QUAD_INDICES[t]
    ensures forall k :: 6 * i <= k < 6 * i + 6 ==> a[k] == OverlayIndex(k)
  {
    QuadFilled(i);
    forall k | 6 * i <= k < 6 * i + 6
      ensures a[k] == OverlayIndex(k)
    {
      var t := k - 6 * i;
      assert a[6 * i + t] == 4 * i + QUAD_INDICES[t];
    }
  }

  /** The six entries written for quad i are OverlayIndex of their positions. */
  lemma QuadFilled(i: nat)
    requires i < OVERLAY_QUADS
    ensures forall t :: 0 <= t < 6 ==> OverlayIndex(6 * i + t) == 4 * i + QUAD_INDICES[t]
  {
    forall t | 0 <= t < 6
      ensures OverlayIndex(6 * i + t) == 4 * i + QUAD_INDICES[t]
    {
      assert (6 * i + t) / 6 == i && (6 * i + t) % 6 == t;
    }
  }

  // ------------------------------------------------------------ the swapchain request

  /** The choices of create_swapchain (lines 302-346) that the renderer makes itself. */
  datatype SwapchainRequest = SwapchainRequest(
    format: SurfaceFormat, presentMode: nat, extent: Extent, minImageCount: nat, sharing: Sharing)

  /**
   * create_swapchain's selections for a suitable device: format, present mode, extent, the
   * image count with the guard on the maximum, and the sharing rule for the families found.
   */
  method CreateSwapchainRequest(caps: SurfaceCapabilities, formats: seq<SurfaceFormat>, modes: seq<nat>,
                                window: Extent, indices: QueueFamilyIndices) returns (request: SwapchainRequest)
    requires |formats| > 0 && indices.IsComplete()
    requires caps.minImageCount < UINT32_MAX && caps.maxImageCount <= UINT32_MAX
    requires caps.maxImageCount == 0 || caps.minImageCount <= caps.maxImageCount
    ensures request.format == PREFERRED_FORMAT || request.format in formats
    ensures request.presentMode == PRESENT_MODE_MAILBOX <==> PRESENT_MODE_MAILBOX in modes
    ensures request.extent == ChooseSwapExtent(caps, window)
    ensures caps.minImageCount <= request.minImageCount
    ensures caps.maxImageCount > 0 ==> request.minImageCount <= caps.maxImageCount
    ensures request.sharing == ImageSharing(indices)
  {
    var format := ChooseSwapSurfaceFormat(formats);
    var mode := ChooseSwapPresentMode(modes);
    var extent := ChooseSwapExtent(caps, window);
    var numImages := ImageCount(caps);
    ImagesWithinLimits(caps);
    request := SwapchainRequest(format, mode, extent, numImages, ImageSharing(indices));
  }
}
