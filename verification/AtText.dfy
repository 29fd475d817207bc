/** Text on the channel, and the prompt for a PDU */
module AtText {

  type Text = string

  const PROMPT: Text := "> "
}
