// Which worker owns a connection (flagcx/core/p2p_scheduler.h).

module P2pScheduler {
  import OrderingKey

  /** workerForAddress: the address, less its alignment bits, mixed and reduced. */
  function WorkerForAddress(address: bv64, numWorkers: int): (worker: int)
    requires numWorkers <= 0x7fff_ffff
    ensures worker == -1 || 0 <= worker < numWorkers
    ensures worker == -1 <==> numWorkers <= 0 || address == 0
  {
    if numWorkers <= 0 || address == 0 then -1 else
      OrderingKey.Mix(address >> 4) as int % numWorkers
  }
}
