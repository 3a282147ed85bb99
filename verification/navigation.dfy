/**
  Block focus and response scrolling of `src/event/navigation.rs`. Unlike
  `Navigation for AppBlock`, these handlers cycle over blocks 1 to 4 only, so
  the Response block is never entered by them.
 */
module BlockNavigation {
  import opened AppState

  /** Focus the next block, cycling over indices 1..4. */
  function MoveToNextBlock(app: App): (r: App)
    ensures r.(selectedBlock := app.selectedBlock) == app
    ensures 1 <= BlockIndex(r.selectedBlock) <= 4 && r.selectedBlock != Response
    ensures BlockIndex(app.selectedBlock) < 4 ==> BlockIndex(r.selectedBlock) == BlockIndex(app.selectedBlock) + 1
    ensures BlockIndex(app.selectedBlock) >= 4 ==> r.selectedBlock == Method
  {
    var i := BlockIndex(app.selectedBlock) + 1;
    app.(selectedBlock := BlockFromIndex(if i > 4 then 1 else i).value)
  }

  /** Focus the previous block, cycling over indices 1..4. */
  function MoveToPreviousBlock(app: App): (r: App)
    ensures r.(selectedBlock := app.selectedBlock) == app
    ensures 1 <= BlockIndex(r.selectedBlock) <= 4 && r.selectedBlock != Response
    ensures BlockIndex(app.selectedBlock) > 1 ==> BlockIndex(r.selectedBlock) + 1 == BlockIndex(app.selectedBlock)
    ensures app.selectedBlock == Method ==> r.selectedBlock == RequestContent
  {
    var i := BlockIndex(app.selectedBlock) - 1;
    app.(selectedBlock := BlockFromIndex(if i == 0 then 4 else i).value)
  }

  /** On the four blocks they cycle over, next and previous undo each other. */
  lemma BlockMovesInverse(app: App)
    requires app.selectedBlock != Response
    ensures MoveToPreviousBlock(MoveToNextBlock(app)) == app
    ensures MoveToNextBlock(MoveToPreviousBlock(app)) == app
  {
  }

  /** Raise the response's vertical scroll by 2, only while the Response block is focused. */
  function ScrollUpResponse(app: App): (r: App)
    ensures r.(responseScroll := app.responseScroll) == app
    ensures r.responseScroll.1 == app.responseScroll.1
    ensures app.selectedBlock == Response ==> r.responseScroll.0 == app.responseScroll.0 + 2
    ensures app.selectedBlock != Response ==> r == app
  {
    if app.selectedBlock == Response then
      app.(responseScroll := (app.responseScroll.0 + 2, app.responseScroll.1))
    else app
  }

  /** Scrolling down from 1 underflows the `u16` subtraction `v - 2`. */
  predicate ScrollDownDefined(app: App) {
    app.selectedBlock == Response ==> app.responseScroll.0 != 1
  }

  /** Lower the response's vertical scroll by 2, not below 0, only while Response is focused. */
  function ScrollDownResponse(app: App): (r: App)
    requires ScrollDownDefined(app)
    ensures r.(responseScroll := app.responseScroll) == app
    ensures r.responseScroll.1 == app.responseScroll.1
    ensures app.selectedBlock == Response ==>
      r.responseScroll.0 <= app.responseScroll.0 && r.responseScroll.0 + 2 >= app.responseScroll.0
      && (r.responseScroll.0 == 0 || r.responseScroll.0 + 2 == app.responseScroll.0)
      && (app.responseScroll.0 > 2 ==> r.responseScroll.0 > 0)
    ensures app.selectedBlock != Response ==> r == app
  {
    if app.selectedBlock == Response then
      var v := app.responseScroll.0;
      var x := if v == 0 then 0 else if v - 2 > 0 then v - 2 else 0;
      app.(responseScroll := (x, app.responseScroll.1))
    else app
  }

  /** Scrolling down undoes scrolling up, whatever the block and the offset. */
  lemma ScrollDownUndoesScrollUp(app: App)
    ensures ScrollDownDefined(ScrollUpResponse(app))
    ensures ScrollDownResponse(ScrollUpResponse(app)) == app
  {
  }

  /** Even offsets stay even, so from the start-up offset 0 scrolling down never underflows. */
  lemma ScrollKeepsEven(app: App)
    requires app.responseScroll.0 % 2 == 0
    ensures ScrollDownDefined(app)
    ensures ScrollUpResponse(app).responseScroll.0 % 2 == 0
    ensures ScrollDownResponse(app).responseScroll.0 % 2 == 0
  {
  }
}
