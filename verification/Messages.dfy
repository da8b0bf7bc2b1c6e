/** The frames of the ME2U protocol, once their text has been parsed. */
module Messages {

  datatype Msg =
      // client to server
    | Me2u
    | Iam(name: string)
    | Listu
    | To(name: string, text: string)
    | Morf(name: string)
    | Bye
      // server to client
    | U2em
    | Etaken
    | Mai
    | Motd(text: string)
    | Utsil(names: seq<string>)
    | From(name: string, text: string)
    | Edne(name: string)
    | Ot(name: string)
    | Eyb
    | Uoff(name: string)

  const GREETING := "Hello Human "
}
