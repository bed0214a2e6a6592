/**
 * model/Client.java: a client record. Its text form is its name, which is what
 * the audit trail records for a new client and what proposal searches match.
 */
module Clients {
  import opened JavaLang

  datatype Client = Client(id: Long, name: string, email: string, phone: string, company: string)

  /** `new Client(name, email, phone, company)`: the id keeps the default 0 of `long`. */
  function NewClient(name: string, email: string, phone: string, company: string): Client
  {
    Client(0, name, email, phone, company)
  }

  /** toString. */
  function ClientToString(c: Client): string
  {
    c.name
  }
}
