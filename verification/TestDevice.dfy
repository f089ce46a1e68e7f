/** read_test_device_operations.c: lookups are submitted, and workers judge what came back. */
module TestDevice {
  import opened Bytes
  import opened Codec
  import opened Rings
  import opened KernelDevice
  import opened DeviceOperations
  import opened WorkersPool
  import WorkQueues
  import R = ReadPersistence

  /** `persistence_work`. */
  datatype PersistenceWork = PersistenceWork(param: KernelDeviceCallback, iid: u32)

  class ReadTestDevice {
    var working: bool
    var pool: WorkersPool?<PersistenceWork>
    var messagesReceived: nat
    var messagesFound: nat

    /** `read_test_open`, once its lock is taken. */
    method ReadTestOpen()
      modifies this`messagesReceived, this`messagesFound
      ensures messagesReceived == messagesFound == 0
    {
      messagesFound, messagesReceived := 0, 0;
    }

    /** The job carries the callback of the slot the message went to, and the `iid` it had then. */
    method ReadTestWrite(dev: PaxosKernelDevice, buffer: seq<byte>, gotJob: bool) returns (r: int)
      requires dev.Valid() && |buffer| <= SLOT && this !in dev.Repr
      requires pool != null ==> pool.Valid() && pool !in dev.Repr && pool.worker !in dev.Repr
      modifies this`messagesReceived, pool, if pool != null then {pool.worker} else {}, dev.Repr
      ensures dev.Valid()
      ensures !working ==> r == -1 && dev.model == old(dev.model) && messagesReceived == old(messagesReceived)
      ensures working ==> r == |buffer| && dev.model == R.AddMessage(old(dev.model), buffer)
      ensures var added := working && !old(dev.model).Full() && gotJob;
              && messagesReceived == old(messagesReceived) + (if added then 1 else 0)
              && (pool != null ==>
                    && pool.Valid()
                    && pool.View() ==
                       if added then
                         WorkQueues.AddWork(old(pool.View()), PersistenceWork(dev.callbackBuf[old(dev.model).current],
                                                                       dev.model.cbs[old(dev.model).current].iid))
                       else old(pool.View()))
    {
      hide R.AddMessage, WorkQueues.AddWork;
      if !working {
        return -1;
      }
      var callback := ReadPersistenceAddMessage(dev, buffer);
      if callback != null && gotJob {
        ghost var s := old(dev.model).current;
        assert dev.SlotValid(s, dev.model.msgs[s], dev.model.cbs[s]);
        AddWork(pool, PersistenceWork(callback, callback.iid));
        messagesReceived := messagesReceived + 1;
      }
      r := |buffer|;
    }

    /** The event awaited is `callback->response != NULL`, which always holds; so the verdict
        falls on whatever the slot `s` shows when the worker runs. */
    method WaitResponse(dev: PaxosKernelDevice, work: PersistenceWork, ghost s: nat)
      requires dev.Valid() && s < dev.model.Size() && work.param == dev.callbackBuf[s] && this !in dev.Repr
      modifies this`messagesFound, dev.Repr
      ensures dev.Valid() && dev.model == R.Finish(old(dev.model), s)
      ensures var cb := old(dev.model).cbs[s];
              messagesFound == old(messagesFound)
              + if !cb.isDone && cb.response.header.iid == work.iid && cb.response.header.len > 0 then 1 else 0
    {
      assert dev.SlotValid(s, dev.model.msgs[s], dev.model.cbs[s]);
      var callback := work.param;
      if !callback.isDone && callback.response.iid == work.iid && callback.response.len > 0 {
        messagesFound := messagesFound + 1;
      }
      callback.isDone := true;
      dev.model := R.Finish(dev.model, s);
      forall i | 0 <= i < |dev.msgBuf|
        ensures dev.SlotValid(i, dev.model.msgs[i], dev.model.cbs[i])
      {
        assert old(dev.SlotValid(i, dev.model.msgs[i], dev.model.cbs[i]));
      }
    }
  }
}
