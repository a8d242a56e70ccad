/** How a connection ends. */
module Outcomes {
  import opened Bytes
  import opened Framing

  /** What Run returns: ErrRejected, io.EOF, ErrCertificateRenewed, or another network error. */
  datatype RunResult = Rejected(reason: bytes) | Eof | Renewed | NetError

  /** What a read from the server can end with. */
  type ReadError = e: Option<RunResult> | e == None || e == Some(Eof) || e == Some(NetError) witness None

  /** The verdicts handlePacket can give: whether the read loop goes on (None) or returns.
      A RENEW_RESPONSE may end the loop only if it offers a certificate; the handler decides. */
  predicate PacketVerdict(p: Packet, renewal: bool, v: Option<RunResult>) {
    if p.cmd == CMD_REJECT then v == Some(Rejected(p.payload))
    else if p.cmd == CMD_RECONNECT then v == Some(Eof)
    else if p.cmd == CMD_RENEW_RESPONSE then
      v == None || (v == Some(Renewed) && renewal && OffersCertificate(p))
    else v == None
  }

  predicate OffersCertificate(p: Packet) {
    match ParseRenewResponse(p.payload)
    case Some((status, _)) => status == STATUS_RENEWED
    case None => false
  }
}
