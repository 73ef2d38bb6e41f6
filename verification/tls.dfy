/** The TLS option decision, tlsConfig (out/out.go lines 216-236). Certificate
    parsing is not modelled: a pool built from a PEM text is represented by
    that text. */
module Tls {
  import opened Config

  /** The trust roots a handshake verifies the server against. */
  datatype Roots = SystemRoots | PemRoots(pem: string)

  datatype TlsConfig = TlsConfig(serverName: string, insecureSkipVerify: bool, roots: Roots)

  function TlsConfigFor(smtp: SmtpSettings): (c: TlsConfig)
    ensures c.serverName == smtp.host
    ensures c.insecureSkipVerify <==> smtp.skipSslValidation
    ensures c.roots.PemRoots? <==> !smtp.skipSslValidation && smtp.caCert != ""
    ensures c.roots.PemRoots? ==> c.roots.pem == smtp.caCert
  {
    var config := TlsConfig(smtp.host, false, SystemRoots);
    if smtp.skipSslValidation then config.(insecureSkipVerify := smtp.skipSslValidation)
    else if smtp.caCert != "" then config.(roots := PemRoots(smtp.caCert))
    else config
  }

  /** With validation skipped the CA certificate is never consulted; otherwise
      the server's certificate is always verified, against the CA when given. */
  lemma SkipOverridesCaCert(smtp: SmtpSettings, caCert: string)
    ensures smtp.skipSslValidation ==> TlsConfigFor(smtp) == TlsConfigFor(smtp.(caCert := caCert))
    ensures !smtp.skipSslValidation ==> !TlsConfigFor(smtp).insecureSkipVerify
    ensures TlsConfigFor(smtp).roots == SystemRoots <==> smtp.skipSslValidation || smtp.caCert == ""
  {
  }
}
