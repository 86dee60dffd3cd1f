/** The java.awt.event.KeyEvent key codes the three games react to. */
module KeyCodes {
  const VK_SPACE: int := 0x20
  const VK_LEFT: int := 0x25
  const VK_UP: int := 0x26
  const VK_RIGHT: int := 0x27
  const VK_DOWN: int := 0x28
  const VK_R: int := 0x52
}
