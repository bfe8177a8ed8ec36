/** The responses a slash command makes to its interaction, in the order made. */
module Interactions {
  import opened JsText

  datatype Action =
    | Defer(ephemeral: bool)                 // interaction.deferReply({ ephemeral })
    | EditReply(text: Str)                   // interaction.editReply(text)
    | FollowUp(text: Str, ephemeral: bool)   // interaction.followUp({ content, ephemeral })
    | Reply(text: Str, ephemeral: bool)      // interaction.reply({ content, ephemeral })
}
