/** The command part of `struct esp_adapter`, updated in place one critical section at a time. */
module CommandAdapter {
  import opened Basics
  import opened Queues
  import C = CommandChannel

  class Adapter {
    const cmdPool: array<C.Node>
    var cmdFreeQueue: seq<nat>
    var cmdPendingQueue: seq<nat>
    var curCmd: Option<nat>
    var curCmdSeq: nat
    var cmdResp: nat
    var cmdSeqCtr: nat

    /** The adapter's fields as one value. */
    ghost function View(): C.Channel
      reads this, cmdPool
    {
      C.Channel(cmdPool[..], cmdFreeQueue, cmdPendingQueue, curCmd, curCmdSeq, cmdResp, cmdSeqCtr)
    }

    ghost predicate Valid()
      reads this, cmdPool
    {
      View().WellFormed()
    }

    /** `alloc_esp_cmd_pool`: zeroed nodes, recycled one by one into the free queue. */
    constructor ()
      ensures Valid() && fresh(cmdPool)
      ensures View() == C.InitChannel()
    {
      cmdPool := new C.Node[C.ESP_NUM_OF_CMD_NODES](_ => C.Node(0, false, None, false, 0));
      cmdFreeQueue, cmdPendingQueue := [], [];
      curCmd, curCmdSeq, cmdResp, cmdSeqCtr := None, 0, 0, 0;
      new;
      for i := 0 to C.ESP_NUM_OF_CMD_NODES
        invariant fresh(cmdPool) && cmdPool.Length == C.ESP_NUM_OF_CMD_NODES
        invariant cmdFreeQueue == seq(i, k => k) && cmdPendingQueue == []
        invariant curCmd == None && curCmdSeq == 0 && cmdResp == 0 && cmdSeqCtr == 0
        invariant forall k :: 0 <= k < cmdPool.Length ==> cmdPool[k] == C.Node(0, false, None, false, 0)
      {
        RecycleCmdNode(i);
      }
      assert View().pool == C.InitChannel().pool;
    }

    method GetFreeCmdNode() returns (node: Option<nat>)
      requires Valid()
      modifies this, cmdPool
      ensures View() == C.Checkout(old(View())) && Valid()
      ensures node == if old(cmdFreeQueue) == [] then None else Some(old(cmdFreeQueue)[0])
      ensures node.Some? ==>
                && cmdFreeQueue == old(cmdFreeQueue)[1..]
                && cmdSeqCtr == (old(cmdSeqCtr) + 1) % 0x1_0000_0000 == cmdPool[node.value].cmdSeq
                && cmdPool[node.value].cmdSkb && cmdPool[node.value].inCmdQueue
    {
      if cmdFreeQueue == [] { return None; }
      var n := cmdFreeQueue[0];
      cmdFreeQueue := cmdFreeQueue[1..];
      cmdSeqCtr := (cmdSeqCtr + 1) % TWO_32;
      cmdPool[n] := cmdPool[n].(cmdSeq := cmdSeqCtr);
      cmdPool[n] := cmdPool[n].(cmdSkb := true);
      cmdPool[n] := cmdPool[n].(inCmdQueue := true);
      return Some(n);
    }

    /** A bad code or an empty pool yields no node; otherwise the first free node, stamped. */
    method PrepareCommandRequest(code: nat) returns (node: Option<nat>)
      requires Valid()
      modifies this, cmdPool
      ensures Valid()
      ensures code == 0 || code >= C.CMD_MAX ==> node == None && View() == old(View())
      ensures 0 < code < C.CMD_MAX ==>
                && (node.None? <==> old(cmdFreeQueue) == [])
                && (node.None? ==> View() == old(View()))
                && (node.Some? ==> node.value == old(cmdFreeQueue)[0]
                                   && View() == C.SetCode(C.Checkout(old(View())), node.value, code)
                                   && cmdPool[node.value].cmdCode == code && cmdPool[node.value].cmdSkb)
    {
      if code == 0 || code >= C.CMD_MAX { return None; }
      node := GetFreeCmdNode();
      if node.Some? {
        cmdPool[node.value] := cmdPool[node.value].(cmdCode := code);
      }
    }

    method QueueCmdNode(n: nat, highPrio: bool)
      requires Valid() && n < cmdPool.Length
      modifies `cmdPendingQueue
      ensures View() == C.Queue(old(View()), n, highPrio) && Valid()
      ensures cmdPendingQueue == if highPrio then [n] + old(cmdPendingQueue) else old(cmdPendingQueue) + [n]
    {
      if highPrio {
        cmdPendingQueue := [n] + cmdPendingQueue;
      } else {
        cmdPendingQueue := cmdPendingQueue + [n];
      }
    }

    method ResetCmdNode(n: nat)
      requires Valid() && n < cmdPool.Length
      modifies `cmdPendingQueue, cmdPool
      ensures View() == C.Reset(old(View()), n) && Valid()
      ensures cmdPool[n] == old(cmdPool[n]).(cmdCode := 0, cmdSkb := false, respSkb := None)
      ensures forall k :: 0 <= k < cmdPool.Length && k != n ==> cmdPool[k] == old(cmdPool[k])
      ensures forall k :: k in cmdPendingQueue <==> k in old(cmdPendingQueue) && !(k == n && old(cmdPool[n].inCmdQueue))
    {
      if cmdPool[n].inCmdQueue {
        cmdPendingQueue := Remove(cmdPendingQueue, n);
      }
      cmdPool[n] := cmdPool[n].(cmdCode := 0);
      if cmdPool[n].cmdSkb {
        cmdPool[n] := cmdPool[n].(cmdSkb := false);
      }
      if cmdPool[n].respSkb.Some? {
        cmdPool[n] := cmdPool[n].(respSkb := None);
      }
    }

    method RecycleCmdNode(n: nat)
      requires Valid() && n < cmdPool.Length
      modifies `cmdPendingQueue, `cmdFreeQueue, cmdPool
      ensures View() == C.Enfree(C.Reset(old(View()), n), n) && Valid()
      ensures cmdFreeQueue == old(cmdFreeQueue) + [n]
      ensures cmdPool[n] == old(cmdPool[n]).(cmdCode := 0, cmdSkb := false, respSkb := None)
    {
      ResetCmdNode(n);
      cmdFreeQueue := cmdFreeQueue + [n];
    }

    method ReleaseIfOwner(n: nat)
      requires Valid() && n < cmdPool.Length
      modifies `curCmd, `cmdResp
      ensures View() == C.Release(old(View()), n) && Valid()
      ensures if old(curCmd) == Some(n) && old(curCmdSeq) == cmdPool[n].cmdSeq then curCmd == None && cmdResp == 0
              else curCmd == old(curCmd) && cmdResp == old(cmdResp)
    {
      if curCmd == Some(n) && curCmdSeq == cmdPool[n].cmdSeq {
        curCmd := None;
        cmdResp := 0;
      }
    }

    /** `esp_cmd_work`; `sendOk` is whether `esp_send_packet` returns zero. */
    method CmdWork(sendOk: bool)
      requires Valid()
      modifies this, cmdPool
      ensures View() == C.Work(old(View()), sendOk) && Valid()
      ensures old(curCmd).Some? || old(cmdPendingQueue) == [] ==> View() == old(View())
      ensures old(curCmd).None? && old(cmdPendingQueue) != [] ==>
                var n := old(cmdPendingQueue)[0];
                if sendOk && old(cmdPool[n]).cmdSkb && old(cmdPool[n]).cmdCode != 0
                then && curCmd == Some(n) && curCmdSeq == old(cmdPool[n]).cmdSeq && cmdResp == 0
                     && cmdPendingQueue == old(cmdPendingQueue)[1..] && cmdFreeQueue == old(cmdFreeQueue)
                     && cmdPool[n] == old(cmdPool[n]).(inCmdQueue := false, cmdSkb := false)
                else && curCmd == None && cmdFreeQueue == old(cmdFreeQueue) + [n]
                     && !cmdPool[n].inCmdQueue && cmdPool[n].cmdCode == 0 && !cmdPool[n].cmdSkb
    {
      if curCmd.Some? { return; }
      if cmdPendingQueue == [] { return; }
      var n := cmdPendingQueue[0];
      cmdPendingQueue := cmdPendingQueue[1..];
      cmdPool[n] := cmdPool[n].(inCmdQueue := false);
      if !cmdPool[n].cmdSkb || cmdPool[n].cmdCode == 0 {
        RecycleCmdNode(n);
        return;
      }
      curCmd := Some(n);
      curCmdSeq := cmdPool[n].cmdSeq;
      cmdResp := 0;
      if !sendOk {
        cmdPool[n] := cmdPool[n].(cmdSkb := false);
        curCmd := None;
        RecycleCmdNode(n);
        return;
      }
      cmdPool[n] := cmdPool[n].(cmdSkb := false);
    }

    method ProcessCmdResp(skb: nat) returns (accepted: bool)
      requires Valid()
      modifies `cmdResp, cmdPool
      ensures View() == C.Response(old(View()), skb) && Valid()
      ensures accepted == old(curCmd).Some?
      ensures accepted ==>
                var n := old(curCmd).value;
                && cmdPool[n] == old(cmdPool[n]).(respSkb := Some(skb)) && cmdResp == old(cmdPool[n]).cmdCode
                && forall k :: 0 <= k < cmdPool.Length && k != n ==> cmdPool[k] == old(cmdPool[k])
      ensures !accepted ==> View() == old(View())
    {
      if curCmd.None? { return false; }
      cmdPool[curCmd.value] := cmdPool[curCmd.value].(respSkb := Some(skb));
      cmdResp := cmdPool[curCmd.value].cmdCode;
      return true;
    }
  }
}
