// The static arrays and functions of main/mkh_broadcast.c as an object, each
// operation proved against its step of the Broadcast machine.
module SlicerObject {
  import opened Bits
  import opened Protocol
  import opened Broadcast
  import Encoder

  const ADV_BUF_LEN := 27

  class TimeSlicer {
    const channelValue: array<Row>
    const deviceActive: array<bool>
    const pendingOffServices: array<int>
    const deviceTransitioning: array<bool>
    const hubBroadcasting: array<bool>
    const lastEventSendUs: array<int>
    // Whether the device's callback registration waits on the run loop.
    const callbackQueued: array<bool>
    const advBuf: array<byte>
    var timeSliceLastDevice: int
    ghost var sent: seq<Sent>
    ghost var events: seq<Event>

    ghost predicate Valid()
      reads this
    {
      channelValue.Length == 3 && deviceActive.Length == 3 && pendingOffServices.Length == 3
      && deviceTransitioning.Length == 3 && hubBroadcasting.Length == 3 && lastEventSendUs.Length == 3
      && callbackQueued.Length == 3 && advBuf.Length == ADV_BUF_LEN && timeSliceLastDevice >= -1
      && deviceActive != deviceTransitioning && deviceActive != hubBroadcasting && deviceActive != callbackQueued
      && deviceTransitioning != hubBroadcasting && deviceTransitioning != callbackQueued
      && hubBroadcasting != callbackQueued && pendingOffServices != lastEventSendUs
    }

    ghost function View(): (s: Slicer)
      requires Valid()
      reads this, channelValue, deviceActive, pendingOffServices, deviceTransitioning, hubBroadcasting,
            lastEventSendUs, callbackQueued
    {
      State(channelValue[..], deviceActive[..], pendingOffServices[..], deviceTransitioning[..], hubBroadcasting[..],
            timeSliceLastDevice, lastEventSendUs[..], callbackQueued[..], sent, events)
    }

    constructor ()
      ensures Valid() && View() == Boot()
      ensures fresh(channelValue) && fresh(deviceActive) && fresh(pendingOffServices) && fresh(deviceTransitioning)
      ensures fresh(hubBroadcasting) && fresh(lastEventSendUs) && fresh(callbackQueued) && fresh(advBuf)
    {
      channelValue := new Row[3](_ => NEUTRAL_ROW);
      deviceActive := new bool[3](_ => false);
      pendingOffServices := new int[3](_ => 0);
      deviceTransitioning := new bool[3](_ => false);
      hubBroadcasting := new bool[3](_ => false);
      lastEventSendUs := new int[3](_ => 0);
      callbackQueued := new bool[3](_ => false);
      advBuf := new byte[ADV_BUF_LEN](_ => 0);
      timeSliceLastDevice := -1;
      sent, events := [], [];
      new;
      MkhBroadcastInit();
      assert channelValue[..] == [NEUTRAL_ROW, NEUTRAL_ROW, NEUTRAL_ROW];
      assert hubBroadcasting[..] == callbackQueued[..] == [false, false, false];
      assert lastEventSendUs[..] == [0, 0, 0];
    }

    // mkh_broadcast_init: the first two slots rotate, nothing is pending.
    method MkhBroadcastInit()
      requires Valid()
      modifies deviceActive, pendingOffServices, deviceTransitioning
      ensures Valid()
      ensures View() == old(View()).(active := Boot().active, pending := Boot().pending,
                                     transitioning := Boot().transitioning)
    {
      for d := 0 to 3
        invariant forall k :: 0 <= k < d ==> deviceActive[k] == (k < TIME_SLICE_NUM_DEVICES)
        invariant forall k :: 0 <= k < d ==> pendingOffServices[k] == 0 && !deviceTransitioning[k]
      {
        deviceActive[d] := d < TIME_SLICE_NUM_DEVICES;
        pendingOffServices[d] := 0;
        deviceTransitioning[d] := false;
      }
      assert deviceActive[..] == [true, true, false];
      assert pendingOffServices[..] == [0, 0, 0];
      assert deviceTransitioning[..] == [false, false, false];
    }

    // mkh_next_active_device.
    method NextActiveDevice(after: int) returns (device: int)
      requires Valid() && after >= -1
      ensures device == NextActive(deviceActive[..], after)
    {
      for i := 1 to 4
        invariant NextActive(deviceActive[..], after) == NextFrom(deviceActive[..], after, i)
      {
        var candidate := (after + i + 3) % 3;
        if deviceActive[candidate] {
          return candidate;
        }
      }
      return -1;
    }

    // mkh_set_adv_payload: the buffer the stack transmits from.
    method SetAdvPayload(payload: seq<byte>)
      requires Valid() && |payload| <= 20
      modifies advBuf
      ensures advBuf[..7 + |payload|] == AdvertisingData(payload)
    {
      hide LengthByte;
      advBuf[0] := 0x02;
      advBuf[1] := DATA_TYPE_FLAGS;
      advBuf[2] := 0x06;
      advBuf[3] := LengthByte(|payload|);
      advBuf[4] := DATA_TYPE_MANUFACTURER;
      advBuf[5] := COMPANY_ID_LO;
      advBuf[6] := COMPANY_ID_HI;
      ghost var lead := advBuf[..7];
      Encoder.CopyIn(advBuf, 7, payload);
      assert advBuf[..7 + |payload|] == lead + payload;
    }

    // The stack transmits the telegram staged last.
    ghost predicate OnAir()
      requires Valid()
      reads this, advBuf
    {
      sent != []
      && var payload := PayloadOf(sent[|sent| - 1]);
         7 + |payload| <= advBuf.Length && advBuf[..7 + |payload|] == AdvertisingData(payload)
    }

    // mkh_stage_and_send_values, also the body of the periodic path.
    method StageAndSend(device: int, values: Row, ghost periodic: bool)
      requires Valid() && 0 <= device < 3
      modifies this`sent, advBuf, hubBroadcasting
      ensures Valid()
      ensures View() == old(View()).(sent := old(sent) + [Control(device, periodic, values)],
                                     broadcasting := old(hubBroadcasting[..])[device := true])
      ensures OnAir()
    {
      hide Encrypt, ControlTelegram, AdvertisingData;
      var telegram := Encoder.BuildControlTelegram(device, values);
      var payload := new byte[20];
      var length := Encoder.MkhProtocolEncrypt(telegram[..], payload);
      assert payload[..length] == ControlPayload(device, values);
      SetAdvPayload(payload[..length]);
      assert advBuf[..] == advBuf[..27];
      hubBroadcasting[device] := true;
      sent := sent + [Control(device, periodic, values)];
    }

    // mkh_set_channel.
    method MkhSetChannel(device: int, port: int, value: byte, now: int)
      requires Valid()
      modifies this`events, channelValue, lastEventSendUs, callbackQueued
      ensures Valid()
      ensures View() == SetChannel(old(View()), device, port, value, now)
    {
      if device < 0 || device >= 3 {
        return;
      }
      if port < 0 || port >= 6 {
        return;
      }
      var changed := channelValue[device][port] != value;
      channelValue[device] := channelValue[device][port := value];
      if changed && deviceActive[device] {
        if now - lastEventSendUs[device] >= EVENT_SEND_MIN_INTERVAL_US {
          lastEventSendUs[device] := now;
          callbackQueued[device] := true;
          events := events + [Event(device, now)];
        }
      }
    }

    // mkh_event_send_callback, run by the run loop once for a queued registration.
    method EventSendCallback(device: int)
      requires Valid() && 0 <= device < 3 && callbackQueued[device]
      modifies this`sent, advBuf, hubBroadcasting, callbackQueued
      ensures Valid()
      ensures View() == EventCallback(old(View()), device)
      ensures OnAir()
    {
      hide OnAir;
      callbackQueued[device] := false;
      var values := channelValue[device];
      StageAndSend(device, values, false);
    }

    // mkh_broadcast_control: one timer firing.
    method BroadcastControl()
      requires Valid()
      modifies this, advBuf, hubBroadcasting, pendingOffServices, deviceActive, deviceTransitioning
      ensures Valid()
      ensures View() == TimerFires(old(View()))
      ensures sent != old(sent) ==> OnAir()
    {
      hide OnAir, NextFrom;
      ghost var was := View();
      var device := NextActiveDevice(timeSliceLastDevice);
      if device < 0 {
        return;
      }
      timeSliceLastDevice := device;
      var values := channelValue[device];
      StageAndSend(device, values, true);
      if pendingOffServices[device] > 0 {
        pendingOffServices[device] := pendingOffServices[device] - 1;
        if pendingOffServices[device] == 0 {
          deviceActive[device] := false;
          hubBroadcasting[device] := false;
          deviceTransitioning[device] := false;
        }
      }
    }

    // The six neutral writes of a toggle.
    method WriteNeutral(device: int, times: SixTimes)
      requires Valid()
      modifies this`events, channelValue, lastEventSendUs, callbackQueued
      ensures Valid()
      ensures View() == Neutralize(old(View()), device, times, 6)
    {
      hide SetChannel;
      for ch := 0 to 6
        invariant Valid()
        invariant View() == Neutralize(old(View()), device, times, ch)
      {
        MkhSetChannel(device, ch, NEUTRAL, times[ch]);
      }
    }

    // mkh_broadcast_toggle_off.
    method MkhToggleOff(device: int, times: SixTimes)
      requires Valid()
      modifies this`events, channelValue, lastEventSendUs, callbackQueued, deviceTransitioning, pendingOffServices
      ensures Valid()
      ensures View() == ToggleOff(old(View()), device, times)
    {
      hide Neutralize;
      if device < 0 || device >= 3 {
        return;
      }
      if !deviceActive[device] || pendingOffServices[device] > 0 {
        return;
      }
      deviceTransitioning[device] := true;
      WriteNeutral(device, times);
      pendingOffServices[device] := OFF_GRACE_SERVICES;
    }

    // The CONNECT telegram, encrypted and handed to the stack.
    method ReplayConnect()
      requires Valid()
      modifies this`sent, advBuf
      ensures Valid()
      ensures View() == old(View()).(sent := old(sent) + [Connect])
      ensures OnAir()
    {
      hide Encrypt, AdvertisingData;
      var payload := new byte[18];
      var length := Encoder.MkhProtocolEncrypt(CONNECT_TELEGRAM, payload);
      SetAdvPayload(payload[..length]);
      sent := sent + [Connect];
    }

    // mkh_broadcast_toggle_on.
    method MkhToggleOn(device: int, times: SixTimes)
      requires Valid()
      modifies this, channelValue, lastEventSendUs, callbackQueued, deviceTransitioning, pendingOffServices,
               advBuf, deviceActive, hubBroadcasting
      ensures Valid()
      ensures View() == ToggleOn(old(View()), device, times)
      ensures sent != old(sent) ==> OnAir()
    {
      hide Neutralize, OnAir;
      if device < 0 || device >= 3 {
        return;
      }
      if device >= TIME_SLICE_NUM_DEVICES {
        return;
      }
      if deviceActive[device] && pendingOffServices[device] == 0 {
        return;
      }
      ghost var was := View();
      deviceTransitioning[device] := true;
      pendingOffServices[device] := 0;
      WriteNeutral(device, times);
      ReplayConnect();
      deviceActive[device] := true;
      hubBroadcasting[device] := true;
      deviceTransitioning[device] := false;
    }
  }
}
