// GET visibility domain (flagcx/adaptor/net/net_transport.cc:354-456): four watermarks and one
// flush request. `flushing` stands for flushRequest != NULL.

module Visibility {
  import opened Results

  datatype Domain = Domain(issued: nat, dataDone: nat, target: nat, visible: nat, flushing: bool)

  const NewDomain := Domain(0, 0, 0, 0, false)

  /** The order of the four watermarks. */
  ghost predicate Ordered(d: Domain) {
    && d.visible <= d.target <= d.dataDone <= d.issued
    && (d.flushing ==> d.visible < d.target)
  }

  function Issue(d: Domain): (r: (Domain, Status)) {
    if d.issued >= UINT64_MAX - 1 then (d, InvalidArgument)
    else (d.(issued := d.issued + 1), Success)
  }

  function AdvanceData(d: Domain, upTo: nat): (r: (Domain, Status)) {
    if upTo < d.dataDone || upTo > d.issued then (d, InvalidArgument)
    else (d.(dataDone := upTo), Success)
  }

  function BeginFlush(d: Domain): (r: (Domain, Status)) {
    if d.flushing || d.target != d.visible || d.dataDone <= d.visible then (d, InvalidArgument)
    else (d.(target := d.dataDone), Success)
  }

  function AdvanceVisible(d: Domain, upTo: nat): (r: (Domain, Status)) {
    if d.flushing || d.target != d.visible || upTo < d.visible || upTo > d.dataDone
    then (d, InvalidArgument)
    else (d.(visible := upTo, target := upTo), Success)
  }

  /** A failed flush retires its range too, so the result does not matter to the watermarks. */
  function CompleteFlush(d: Domain): (r: (Domain, Status)) {
    if d.target < d.visible || d.target > d.dataDone || (d.target == d.visible && !d.flushing)
    then (d, InvalidArgument)
    else (d.(flushing := false, visible := d.target), Success)
  }
}
