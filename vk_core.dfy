/** Three first-match searches of the Vulkan Core (triangles/application/Vulkan/vkCore.cpp):
    the memory type for an allocation, the graphics device and queue family, and the check
    that every requested validation layer is available. The tables Vulkan fills in are inputs. */
module VkCore {

  datatype Option<T> = None | Some(value: T)

  /** VK_QUEUE_GRAPHICS_BIT */
  const QueueGraphicsBit: bv32 := 0x1

  /** Memory type i is allowed by the type filter (bit i set) and has every requested property. */
  predicate Suitable(typeFilter: bv32, properties: bv32, propertyFlags: bv32, i: nat)
    requires i < 32
  {
    typeFilter & (1 << i) != 0 && propertyFlags & properties == properties
  }

  /** Core::findMemoryType: the first suitable memory type among the first `memoryTypeCount`;
      None stands for the runtime_error thrown when there is none. */
  method FindMemoryType(typeFilter: bv32, properties: bv32, memoryTypes: array<bv32>, memoryTypeCount: nat)
    returns (r: Option<nat>)
    requires memoryTypeCount <= memoryTypes.Length && memoryTypeCount <= 32
    ensures r.Some? ==>
              r.value < memoryTypeCount && Suitable(typeFilter, properties, memoryTypes[r.value], r.value)
    ensures r.Some? ==>
              forall j :: 0 <= j < r.value ==> !Suitable(typeFilter, properties, memoryTypes[j], j)
    ensures r.None? <==>
              forall j :: 0 <= j < memoryTypeCount ==> !Suitable(typeFilter, properties, memoryTypes[j], j)
  {
    var i := 0;
    while i < memoryTypeCount
      invariant i <= memoryTypeCount
      invariant forall j :: 0 <= j < i ==> !Suitable(typeFilter, properties, memoryTypes[j], j)
    {
      if typeFilter & (1 << i) != 0 && memoryTypes[i] & properties == properties {
        return Some(i);
      }
      i := i + 1;
    }
    return None;
  }

  /** The queue family k of device i draws graphics and can present. */
  predicate Eligible(qFamilyFlags: seq<seq<bv32>>, qSupportPresent: seq<seq<bool>>, i: nat, k: nat)
    requires Shaped(qFamilyFlags, qSupportPresent)
    requires i < |qFamilyFlags| && k < |qFamilyFlags[i]|
  {
    qFamilyFlags[i][k] & QueueGraphicsBit != 0 && qSupportPresent[i][k]
  }

  /** The present-support table has one entry per queue family of every device. */
  predicate Shaped(qFamilyFlags: seq<seq<bv32>>, qSupportPresent: seq<seq<bool>>) {
    |qSupportPresent| == |qFamilyFlags| &&
    forall i :: 0 <= i < |qFamilyFlags| ==> |qSupportPresent[i]| == |qFamilyFlags[i]|
  }

  /** No family of devices before i, nor of device i before k, is eligible. */
  predicate NoneBefore(qFamilyFlags: seq<seq<bv32>>, qSupportPresent: seq<seq<bool>>, i: nat, k: nat)
    requires Shaped(qFamilyFlags, qSupportPresent)
    requires i <= |qFamilyFlags| && (i < |qFamilyFlags| ==> k <= |qFamilyFlags[i]|)
  {
    && (forall i', k' :: 0 <= i' < i && 0 <= k' < |qFamilyFlags[i']| ==>
          !Eligible(qFamilyFlags, qSupportPresent, i', k'))
    && (i < |qFamilyFlags| ==>
          forall k' :: 0 <= k' < k ==> !Eligible(qFamilyFlags, qSupportPresent, i, k'))
  }

  class Core {
    var deviceIndex: int   // m_DeviceIndex
    var queueFamily: int   // m_QueueFamily
    var validationLayers: seq<string>  // m_validationLayers

    /** Core::selectPhysicalDevice_: pick the first device-major (device, queue family) that
        supports graphics and presentation; families with graphics but no present support
        are skipped. Without a match the fields keep their values, and the final assertion
        fails (`aborted`) when no device had been chosen before. */
    method SelectPhysicalDevice(qFamilyFlags: seq<seq<bv32>>, qSupportPresent: seq<seq<bool>>)
      returns (aborted: bool)
      requires Shaped(qFamilyFlags, qSupportPresent)
      modifies this
      ensures validationLayers == old(validationLayers)
      ensures (exists i, k :: 0 <= i < |qFamilyFlags| && 0 <= k < |qFamilyFlags[i]| &&
                              Eligible(qFamilyFlags, qSupportPresent, i, k)) ==>
                && !aborted
                && 0 <= deviceIndex < |qFamilyFlags| && 0 <= queueFamily < |qFamilyFlags[deviceIndex]|
                && Eligible(qFamilyFlags, qSupportPresent, deviceIndex, queueFamily)
                && NoneBefore(qFamilyFlags, qSupportPresent, deviceIndex, queueFamily)
      ensures (forall i, k :: 0 <= i < |qFamilyFlags| && 0 <= k < |qFamilyFlags[i]| ==>
                              !Eligible(qFamilyFlags, qSupportPresent, i, k)) ==>
                && deviceIndex == old(deviceIndex) && queueFamily == old(queueFamily)
                && (aborted <==> old(deviceIndex) < 0)
    {
      var i := 0;
      while i < |qFamilyFlags|
        invariant i <= |qFamilyFlags|
        invariant NoneBefore(qFamilyFlags, qSupportPresent, i, 0)
        invariant deviceIndex == old(deviceIndex) && queueFamily == old(queueFamily)
        invariant validationLayers == old(validationLayers)
      {
        var k := 0;
        while k < |qFamilyFlags[i]|
          invariant k <= |qFamilyFlags[i]|
          invariant NoneBefore(qFamilyFlags, qSupportPresent, i, k)
          invariant deviceIndex == old(deviceIndex) && queueFamily == old(queueFamily)
          invariant validationLayers == old(validationLayers)
        {
          var flags := qFamilyFlags[i][k];
          if flags & QueueGraphicsBit != 0 {
            if !qSupportPresent[i][k] {
              k := k + 1;
              continue;
            }
            assert Eligible(qFamilyFlags, qSupportPresent, i, k);
            deviceIndex := i;
            queueFamily := k;
            return false;
          }
          k := k + 1;
        }
        i := i + 1;
      }
      aborted := deviceIndex < 0;
    }

    /** Core::checkValidationLayerSupport: every requested layer name equals the name of some
        available layer (`available` is what vkEnumerateInstanceLayerProperties reports). */
    method CheckValidationLayerSupport(available: seq<string>) returns (r: bool)
      ensures r <==> forall name :: name in validationLayers ==> name in available
    {
      var n := 0;
      while n < |validationLayers|
        invariant n <= |validationLayers|
        invariant forall j :: 0 <= j < n ==> validationLayers[j] in available
      {
        var layerName := validationLayers[n];
        var layerFound := false;
        var m := 0;
        while m < |available|
          invariant m <= |available|
          invariant layerFound <==> layerName in available[..m]
        {
          if layerName == available[m] {
            assert available[m] in available[..m + 1];
            layerFound := true;
            break;
          }
          m := m + 1;
        }
        if !layerFound {
          assert available[..|available|] == available;
          return false;
        }
        n := n + 1;
      }
      return true;
    }
  }
}
