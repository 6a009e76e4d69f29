/** The query types and response codes the agent knows (sections 3.2.2 and 4.1.1 of RFC 1035). */
module DnsCodes {

  datatype QueryType = A | Aaaa

  datatype ResponseCode = NoError | FormErr | ServFail | NxDomain | NotImp | Refused
}
