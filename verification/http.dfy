/** The one `fetch` a client handler issues: its method, path and JSON body. The response
    is modelled by the handler's caller as a single abstract outcome (ok or not). */
module Http {

  datatype Method = Get | Post | Put | Delete

  datatype Call<+B> = Call(verb: Method, path: string, body: B)
}
