/** The code of endpoint 0 (src/xusb/usb_requests.c, src/xusb/xmega/usb_xmega.c, and the
    class requests of src/descriptors.c), proved to be the device of Control.dfy. */
module ControlPipe {
  import opened Bits
  import opened Control
  import opened Memory

  class Ep0 {
    const ds: Descriptors
    const ep0BufIn: array<byte>
    const ep0BufOut: array<byte>
    const ep1BufIn: array<byte>

    var usbSetup: Setup
    var usbConfiguration: byte
    var ep0InSize: nat
    var ep0InPtr: nat

    // registers of the USB hardware
    var address: byte  // USB.ADDR
    var setupArrived: bool  // SETUP of the OUT status
    var outFlags: Flags
    var inFlags: Flags
    var inCount: nat  // CNT of the IN endpoint
    var stall: bool  // STALL of both directions
    var event: bool  // SETUPIF or TRNIF

    ghost predicate Valid()
      reads `ep0InSize, `ep0InPtr, `inCount
      ensures Valid() ==> ds.Valid() && ep0BufIn.Length == ep0BufOut.Length == ep1BufIn.Length == 64 && inCount <= 64
      ensures Valid() ==> ep0BufIn != ep0BufOut && ep0BufIn != ep1BufIn
    {
      && ds.Valid() && ep0InPtr + ep0InSize <= |ds.memory| && inCount <= 64
      && ep0BufIn.Length == ep0BufOut.Length == ep1BufIn.Length == 64
      && ep0BufIn != ep0BufOut && ep0BufIn != ep1BufIn
    }

    ghost function State(): Dev
      requires Valid()
      reads this, ep0BufIn, ep0BufOut
    {
      Dev(usbSetup, usbConfiguration, address, ds.memory[ep0InPtr..ep0InPtr + ep0InSize],
                  setupArrived, outFlags, ep0BufOut[..], inFlags, ep0BufIn[..inCount], stall, event)
    }

    // ----- src/xusb/xmega/usb_xmega.c

    method UsbEp0In(size: nat)
      requires Valid() && size <= 64
      modifies `inCount, `inFlags
      ensures Valid() && State() == old(State()).Arm(ep0BufIn[..size])
    {
      inCount := size;
      inFlags := Flags(false, false);
    }

    method UsbEp0Out()
      requires Valid()
      modifies `setupArrived, `outFlags
      ensures Valid() && State() == old(State()).OpenOut()
    {
      setupArrived := false;
      outFlags := Flags(false, false);
    }

    method UsbEp0Stall()
      requires Valid()
      modifies `stall
      ensures Valid() && State() == old(State()).Give(Stall)
    {
      stall := true;
    }

    method UsbReset()
      requires Valid()
      modifies this
      ensures Valid() && State() == old(State()).Reset()
      ensures address == 0 && !setupArrived && !outFlags.nack && !outFlags.complete
      ensures inFlags.nack && !inFlags.complete && !stall
      ensures usbConfiguration == old(usbConfiguration) && event == old(event)
    {
      address := 0;
      setupArrived, outFlags := false, Flags(false, false);
      inFlags := Flags(true, false);
      stall := false;
    }

    method TrncomplVect()
      requires Valid()
      modifies this, ep0BufIn
      ensures Valid() && State() == old(State()).Poll(ds, old(ep1BufIn[..]))
    {
      hide Dev.Handle, Dev.InComplete, Decode, Handled;
      if !event {
        return;
      }
      event := false;
      if setupArrived {
        outFlags := outFlags.(complete := false);
        setupArrived := false;
        usbSetup := Decode(ep0BufOut[..]);
        UsbHandleSetup();
      }
      if inFlags.complete {
        UsbHandleControlInComplete();
      }
    }

    // ----- src/xusb/usb_requests.c

    /** memcpy to ep0_buf_in. */
    method FillEp0In(bytes: seq<byte>)
      requires Valid() && |bytes| <= 64
      modifies ep0BufIn
      ensures Valid() && ep0BufIn[..|bytes|] == bytes
      ensures State() == old(State()).(packet := State().packet)
    {
      Memcpy(ep0BufIn, 0, bytes);
    }

    method UsbEp0InMulti()
      requires Valid()
      modifies `ep0InSize, `ep0InPtr, `inCount, `inFlags, `setupArrived, `outFlags, ep0BufIn
      ensures Valid() && State() == old(State()).Next()
    {
      var tsize := ep0InSize;
      if tsize > USB_EP0_SIZE {
        tsize := USB_EP0_SIZE;
      }
      assert State().rest == ds.memory[ep0InPtr..ep0InPtr + ep0InSize];
      FirstOfRange(ds.memory, ep0InPtr, ep0InSize, tsize);
      NextInSteps(State(), ds.memory[ep0InPtr..ep0InPtr + tsize], tsize);
      hide State, First, Rest, Dev.Next, Dev.Arm, Dev.OpenOut;
      FillEp0In(ds.memory[ep0InPtr..ep0InPtr + tsize]);
      UsbEp0In(tsize);
      if tsize == 0 {
        UsbEp0Out();
      }
      Advance(tsize);
    }

    /** usb_ep0_in_size -= tsize and usb_ep0_in_ptr += tsize */
    method Advance(tsize: nat)
      requires Valid() && tsize <= ep0InSize
      modifies `ep0InSize, `ep0InPtr
      ensures Valid() && State() == old(State()).(rest := old(State()).rest[tsize..])
    {
      ep0InSize := ep0InSize - tsize;
      ep0InPtr := ep0InPtr + tsize;
    }

    method UsbHandleSetup()
      requires Valid()
      modifies this, ep0BufIn
      ensures Valid() && State() == old(State()).Handle(ds, old(ep1BufIn[..]))
      ensures Handled(ds, old(ep1BufIn[..]), old(State()), State())
    {
      ghost var reply := ReplyTo(ds, usbSetup, usbConfiguration, ep1BufIn[..]);
      HandleMeans(ds, ep1BufIn[..], State());
      hide Dev.Give, Handled;
      if usbSetup.Type() == USB_REQTYPE_STANDARD {
        match usbSetup.bRequest
        case 0 =>  // USB_REQ_GetStatus
          AnswerStatus();
        case 1 | 3 =>  // USB_REQ_ClearFeature, USB_REQ_SetFeature
          Answer(0);
        case 5 =>  // USB_REQ_SetAddress
          Answer(0);
        case 6 =>  // USB_REQ_GetDescriptor
          AnswerDescriptor();
        case 8 =>  // USB_REQ_GetConfiguration
          AnswerConfiguration();
        case 9 =>  // USB_REQ_SetConfiguration
          if UsbCbSetConfiguration(usbSetup.wValue % 256) {
            TakeConfiguration();
          } else {
            UsbEp0Stall();
          }
        case _ =>  // USB_REQ_SetInterface is refused by usb_cb_set_interface
          UsbEp0Stall();
      } else {
        UsbCbControlSetup();
      }
    }

    /** usb_ep0_in and usb_ep0_out: the answer and the status stage together. */
    method Answer(size: nat)
      requires Valid() && size <= 64 && !usbSetup.Is(USB_REQ_SetConfiguration)
      modifies `inCount, `inFlags, `setupArrived, `outFlags
      ensures Valid() && State() == old(State()).Give(Packet(ep0BufIn[..size]))
    {
      UsbEp0In(size);
      UsbEp0Out();
    }

    method AnswerStatus()
      requires Valid() && !usbSetup.Is(USB_REQ_SetConfiguration)
      modifies `inCount, `inFlags, `setupArrived, `outFlags, ep0BufIn
      ensures Valid() && State() == old(State()).Give(Packet([0, 0]))
    {
      ep0BufIn[0] := 0;
      ep0BufIn[1] := 0;
      assert ep0BufIn[..2] == [0, 0];
      Answer(2);
    }

    method AnswerConfiguration()
      requires Valid() && !usbSetup.Is(USB_REQ_SetConfiguration)
      modifies `inCount, `inFlags, `setupArrived, `outFlags, ep0BufIn
      ensures Valid() && State() == old(State()).Give(Packet([usbConfiguration]))
    {
      ep0BufIn[0] := usbConfiguration;
      assert ep0BufIn[..1] == [usbConfiguration];
      Answer(1);
    }

    method TakeConfiguration()
      requires Valid() && usbSetup.Is(USB_REQ_SetConfiguration)
      modifies `usbConfiguration, `inCount, `inFlags, `setupArrived, `outFlags
      ensures Valid() && State() == old(State()).Give(Packet([]))
    {
      UsbEp0In(0);
      usbConfiguration := usbSetup.wValue % 256;
      UsbEp0Out();
    }

    method AnswerDescriptor()
      requires Valid()
      modifies `ep0InSize, `ep0InPtr, `inCount, `inFlags, `setupArrived, `outFlags, `stall, ep0BufIn
      ensures Valid()
      ensures ds.Has(usbSetup) ==> State() == old(State()).Give(Transfer(ds.Data(usbSetup)))
      ensures !ds.Has(usbSetup) ==> State() == old(State()).Give(Stall)
    {
      var descriptor := ds.Find(usbSetup);
      Found(ds, usbSetup);
      hide *;
      var size := descriptor.size;
      if size != 0 && descriptor.at != 0 {
        if size > usbSetup.wLength {
          size := usbSetup.wLength;
        }
        assert ds.Has(usbSetup) && ds.memory[descriptor.at..descriptor.at + size] == ds.Data(usbSetup);
        StartMulti(descriptor.at, size);
      } else {
        assert !ds.Has(usbSetup);
        UsbEp0Stall();
      }
    }

    /** The transfer of `size` bytes from address `at` is set up and its first packet handed over. */
    method StartMulti(at: nat, size: nat)
      requires Valid() && at + size <= |ds.memory|
      modifies `ep0InSize, `ep0InPtr, `inCount, `inFlags, `setupArrived, `outFlags, ep0BufIn
      ensures Valid() && State() == old(State()).Give(Transfer(ds.memory[at..at + size]))
    {
      hide Dev.Next;
      ep0InSize := size;
      ep0InPtr := at;
      UsbEp0InMulti();
    }

    method UsbHandleControlInComplete()
      requires Valid()
      modifies this, ep0BufIn
      ensures Valid() && State() == old(State()).InComplete()
    {
      if usbSetup.Type() == USB_REQTYPE_STANDARD {
        var req := usbSetup.bRequest;
        if req == USB_REQ_SetAddress {
          address := usbSetup.wValue % 128;
        } else if req == USB_REQ_GetDescriptor {
          UsbEp0InMulti();
        }
      }
    }

    // ----- src/descriptors.c

    predicate UsbCbSetConfiguration(config: byte) {
      config <= 1
    }

    method UsbCbControlSetup()
      requires Valid() && usbSetup.Type() != USB_REQTYPE_STANDARD
      modifies this, ep0BufIn
      ensures Valid() && State() == old(State()).Handle(ds, old(ep1BufIn[..]))
    {
      if usbSetup.Type() == USB_REQTYPE_CLASS {
        if usbSetup.bRequest == USB_REQ_HID_GET_REPORT && usbSetup.wIndex % 256 == INTERFACE_VENDOR {
          FillEp0In(ep1BufIn[..]);
          Answer(64);
        } else {
          UsbEp0Stall();
        }
      }
    }
  }

  /** Whatever has been left in the IN buffer. */
  lemma NextInSteps(d: Dev, p: seq<byte>, tsize: nat)
    requires tsize <= |d.rest| && p == First(d.rest) && Rest(d.rest) == d.rest[tsize..]
             && (tsize == 0 <==> d.rest == [])
    ensures forall x :: d.Next() == (if tsize == 0 then d.(packet := x).Arm(p).OpenOut()
                                     else d.(packet := x).Arm(p)).(rest := d.rest[tsize..])
  {
  }

  lemma Found(ds: Descriptors, s: Setup)
    requires ds.Valid()
    ensures var place := ds.Find(s);
            var size := if place.size > s.wLength then s.wLength else place.size;
            && (ds.Has(s) <==> place.size != 0 && place.at != 0)
            && (ds.Has(s) ==> place.at + size <= |ds.memory| && ds.Data(s) == ds.memory[place.at..place.at + size])
  {
  }

  lemma FirstOfRange(memory: seq<byte>, at: nat, size: nat, tsize: nat)
    requires at + size <= |memory| && tsize == Min(size, USB_EP0_SIZE)
    ensures First(memory[at..at + size]) == memory[at..at + tsize]
    ensures tsize == 0 <==> memory[at..at + size] == []
    ensures Rest(memory[at..at + size]) == memory[at..at + size][tsize..]
  {
  }
}
