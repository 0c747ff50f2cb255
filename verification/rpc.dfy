/**
 Names of the host platform's remote methods that the installers call.
 */
module Rpc {
  const BindMethod: string := "placement.bind"
  const UnbindMethod: string := "placement.unbind"
}
