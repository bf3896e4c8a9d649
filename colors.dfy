/** The badge and dot colour of an event type, the `getEventColor` switch shared by all three views. */
module EventColors {

  /** The four recognised types get their own colour; every other string falls back to gray. */
  function GetEventColor(kind: string): (color: string)
    ensures color == "blue" <==> kind == "personal"
    ensures color == "green" <==> kind == "trabajo"
    ensures color == "orange" <==> kind == "clase"
    ensures color == "pink" <==> kind == "experimento"
    ensures color == "gray" <==> kind !in {"personal", "trabajo", "clase", "experimento"}
  {
    match kind
    case "personal" => "blue"
    case "trabajo" => "green"
    case "clase" => "orange"
    case "experimento" => "pink"
    case _ => "gray"
  }
}
