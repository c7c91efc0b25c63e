// The application time-out mask of src/central_node_firmware.cc: one bit per application
// card, set when the card's configuration is written first.
module FirmwareMask {

  const FW_NUM_APPLICATION_MASKS := 1024

  class Firmware {
    var applicationTimeoutMask: set<nat>

    constructor ()
      ensures applicationTimeoutMask == {}
    {
      applicationTimeoutMask := {};
    }

    // Ids that do not exist are ignored.
    method SetAppTimeoutEnable(appId: nat, enable: bool)
      modifies this
      ensures forall id: nat :: id in applicationTimeoutMask <==>
        if id == appId < 1024 then enable else id in old(applicationTimeoutMask)
    {
      if appId >= FW_NUM_APPLICATION_MASKS {
        return;
      }
      if enable {
        applicationTimeoutMask := applicationTimeoutMask + {appId};
      } else {
        applicationTimeoutMask := applicationTimeoutMask - {appId};
      }
    }

    predicate GetAppTimeoutEnable(appId: nat)
      requires appId < FW_NUM_APPLICATION_MASKS
      reads this
    {
      appId in applicationTimeoutMask
    }
  }
}
