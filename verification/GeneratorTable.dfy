/**
 The generator polynomials of degree 1 to 30, as exponents, highest power of x first. Degrees 7, 10, 13, 15 to 18 and
 the even ones from 20 are rows of the encoder's table; the others are steps on the way, so that each row can be checked
 against the one before.
 */
module GeneratorTable {
  import opened GaloisTables
  import opened GaloisField

  function Row0(j: nat): nat {
    0
  }

  function Row1(j: nat): nat {
    match j case 0 => 0 case _ => 0
  }

  function Row2(j: nat): nat {
    match j case 0 => 0 case 1 => 25 case _ => 1
  }

  function Row3(j: nat): nat {
    match j case 0 => 0 case 1 => 198 case 2 => 199 case _ => 3
  }

  function Row4(j: nat): nat {
    match j case 0 => 0 case 1 => 75 case 2 => 249 case 3 => 78 case _ => 6
  }

  function Row5(j: nat): nat {
    match j case 0 => 0 case 1 => 113 case 2 => 164 case 3 => 166 case 4 => 119 case _ => 10
  }

  function Row6(j: nat): nat {
    match j case 0 => 0 case 1 => 166 case 2 => 0 case 3 => 134 case 4 => 5 case 5 => 176 case _ => 15
  }

  function Row7(j: nat): nat {
    match j case 0 => 0 case 1 => 87 case 2 => 229 case 3 => 146 case 4 => 149 case 5 => 238 case 6 => 102 case _ => 21
  }

  function Row8(j: nat): nat {
    match j case 0 => 0 case 1 => 175 case 2 => 238 case 3 => 208 case 4 => 249 case 5 => 215 case 6 => 252 case 7 => 196
    case _ => 28
  }

  function Row9(j: nat): nat {
    match j case 0 => 0 case 1 => 95 case 2 => 246 case 3 => 137 case 4 => 231 case 5 => 235 case 6 => 149 case 7 => 11
    case 8 => 123 case _ => 36
  }

  function Row10(j: nat): nat {
    match j case 0 => 0 case 1 => 251 case 2 => 67 case 3 => 46 case 4 => 61 case 5 => 118 case 6 => 70 case 7 => 64
    case 8 => 94 case 9 => 32 case _ => 45
  }

  function Row11(j: nat): nat {
    match j case 0 => 0 case 1 => 220 case 2 => 192 case 3 => 91 case 4 => 194 case 5 => 172 case 6 => 177 case 7 => 209
    case 8 => 116 case 9 => 227 case 10 => 10 case _ => 55
  }

  function Row12(j: nat): nat {
    match j case 0 => 0 case 1 => 102 case 2 => 43 case 3 => 98 case 4 => 121 case 5 => 187 case 6 => 113 case 7 => 198
    case 8 => 143 case 9 => 131 case 10 => 87 case 11 => 157 case _ => 66
  }

  function Row13(j: nat): nat {
    match j case 0 => 0 case 1 => 74 case 2 => 152 case 3 => 176 case 4 => 100 case 5 => 86 case 6 => 100 case 7 => 106
    case 8 => 104 case 9 => 130 case 10 => 218 case 11 => 206 case 12 => 140 case _ => 78
  }

  function Row14(j: nat): nat {
    match j case 0 => 0 case 1 => 199 case 2 => 249 case 3 => 155 case 4 => 48 case 5 => 190 case 6 => 124 case 7 => 218
    case 8 => 137 case 9 => 216 case 10 => 87 case 11 => 207 case 12 => 59 case 13 => 22 case _ => 91
  }

  function Row15(j: nat): nat {
    match j case 0 => 0 case 1 => 8 case 2 => 183 case 3 => 61 case 4 => 91 case 5 => 202 case 6 => 37 case 7 => 51
    case 8 => 58 case 9 => 58 case 10 => 237 case 11 => 140 case 12 => 124 case 13 => 5 case 14 => 99 case _ => 105
  }

  function Row16(j: nat): nat {
    match j case 0 => 0 case 1 => 120 case 2 => 104 case 3 => 107 case 4 => 109 case 5 => 102 case 6 => 161 case 7 => 76
    case 8 => 3 case 9 => 91 case 10 => 191 case 11 => 147 case 12 => 169 case 13 => 182 case 14 => 194 case 15 => 225 case _ => 120
  }

  function Row17(j: nat): nat {
    match j case 0 => 0 case 1 => 43 case 2 => 139 case 3 => 206 case 4 => 78 case 5 => 43 case 6 => 239 case 7 => 123
    case 8 => 206 case 9 => 214 case 10 => 147 case 11 => 24 case 12 => 99 case 13 => 150 case 14 => 39 case 15 => 243 case 16 => 163
    case _ => 136
  }

  function Row18(j: nat): nat {
    match j case 0 => 0 case 1 => 215 case 2 => 234 case 3 => 158 case 4 => 94 case 5 => 184 case 6 => 97 case 7 => 118
    case 8 => 170 case 9 => 79 case 10 => 187 case 11 => 152 case 12 => 148 case 13 => 252 case 14 => 179 case 15 => 5 case 16 => 98
    case 17 => 96 case _ => 153
  }

  function Row19(j: nat): nat {
    match j case 0 => 0 case 1 => 67 case 2 => 3 case 3 => 105 case 4 => 153 case 5 => 52 case 6 => 90 case 7 => 83
    case 8 => 17 case 9 => 150 case 10 => 159 case 11 => 44 case 12 => 128 case 13 => 153 case 14 => 133 case 15 => 252 case 16 => 222
    case 17 => 138 case 18 => 220 case _ => 171
  }

  function Row20(j: nat): nat {
    match j case 0 => 0 case 1 => 17 case 2 => 60 case 3 => 79 case 4 => 50 case 5 => 61 case 6 => 163 case 7 => 26
    case 8 => 187 case 9 => 202 case 10 => 180 case 11 => 221 case 12 => 225 case 13 => 83 case 14 => 239 case 15 => 156 case 16 => 164
    case 17 => 212 case 18 => 212 case 19 => 188 case _ => 190
  }

  function Row21(j: nat): nat {
    match j case 0 => 0 case 1 => 240 case 2 => 233 case 3 => 104 case 4 => 247 case 5 => 181 case 6 => 140 case 7 => 67
    case 8 => 98 case 9 => 85 case 10 => 200 case 11 => 210 case 12 => 115 case 13 => 148 case 14 => 137 case 15 => 230 case 16 => 36
    case 17 => 122 case 18 => 254 case 19 => 148 case 20 => 175 case _ => 210
  }

  function Row22(j: nat): nat {
    match j case 0 => 0 case 1 => 210 case 2 => 171 case 3 => 247 case 4 => 242 case 5 => 93 case 6 => 230 case 7 => 14
    case 8 => 109 case 9 => 221 case 10 => 53 case 11 => 200 case 12 => 74 case 13 => 8 case 14 => 172 case 15 => 98 case 16 => 80
    case 17 => 219 case 18 => 134 case 19 => 160 case 20 => 105 case 21 => 165 case _ => 231
  }

  function Row23(j: nat): nat {
    match j case 0 => 0 case 1 => 171 case 2 => 102 case 3 => 146 case 4 => 91 case 5 => 49 case 6 => 103 case 7 => 65
    case 8 => 17 case 9 => 193 case 10 => 150 case 11 => 14 case 12 => 25 case 13 => 183 case 14 => 248 case 15 => 94 case 16 => 164
    case 17 => 224 case 18 => 192 case 19 => 1 case 20 => 78 case 21 => 56 case 22 => 147 case _ => 253
  }

  function Row24(j: nat): nat {
    match j case 0 => 0 case 1 => 229 case 2 => 121 case 3 => 135 case 4 => 48 case 5 => 211 case 6 => 117 case 7 => 251
    case 8 => 126 case 9 => 159 case 10 => 180 case 11 => 169 case 12 => 152 case 13 => 192 case 14 => 226 case 15 => 228 case 16 => 218
    case 17 => 111 case 18 => 0 case 19 => 117 case 20 => 232 case 21 => 87 case 22 => 96 case 23 => 227 case _ => 21
  }

  function Row25(j: nat): nat {
    match j case 0 => 0 case 1 => 231 case 2 => 181 case 3 => 156 case 4 => 39 case 5 => 170 case 6 => 26 case 7 => 12
    case 8 => 59 case 9 => 15 case 10 => 148 case 11 => 201 case 12 => 54 case 13 => 66 case 14 => 237 case 15 => 208 case 16 => 99
    case 17 => 167 case 18 => 144 case 19 => 182 case 20 => 95 case 21 => 243 case 22 => 129 case 23 => 178 case 24 => 252 case _ => 45
  }

  function Row26(j: nat): nat {
    match j case 0 => 0 case 1 => 173 case 2 => 125 case 3 => 158 case 4 => 2 case 5 => 103 case 6 => 182 case 7 => 118
    case 8 => 17 case 9 => 145 case 10 => 201 case 11 => 111 case 12 => 28 case 13 => 165 case 14 => 53 case 15 => 161 case 16 => 21
    case 17 => 245 case 18 => 142 case 19 => 13 case 20 => 102 case 21 => 48 case 22 => 227 case 23 => 153 case 24 => 145 case 25 => 218
    case _ => 70
  }

  function Row27(j: nat): nat {
    match j case 0 => 0 case 1 => 79 case 2 => 228 case 3 => 8 case 4 => 165 case 5 => 227 case 6 => 21 case 7 => 180
    case 8 => 29 case 9 => 9 case 10 => 237 case 11 => 70 case 12 => 99 case 13 => 45 case 14 => 58 case 15 => 138 case 16 => 135
    case 17 => 73 case 18 => 126 case 19 => 172 case 20 => 94 case 21 => 216 case 22 => 193 case 23 => 157 case 24 => 26 case 25 => 17
    case 26 => 149 case _ => 96
  }

  function Row28(j: nat): nat {
    match j case 0 => 0 case 1 => 168 case 2 => 223 case 3 => 200 case 4 => 104 case 5 => 224 case 6 => 234 case 7 => 108
    case 8 => 180 case 9 => 110 case 10 => 190 case 11 => 195 case 12 => 147 case 13 => 205 case 14 => 27 case 15 => 232 case 16 => 201
    case 17 => 21 case 18 => 43 case 19 => 245 case 20 => 87 case 21 => 42 case 22 => 195 case 23 => 212 case 24 => 119 case 25 => 242
    case 26 => 37 case 27 => 9 case _ => 123
  }

  function Row29(j: nat): nat {
    match j case 0 => 0 case 1 => 156 case 2 => 45 case 3 => 183 case 4 => 29 case 5 => 151 case 6 => 219 case 7 => 54
    case 8 => 96 case 9 => 249 case 10 => 24 case 11 => 136 case 12 => 5 case 13 => 241 case 14 => 175 case 15 => 189 case 16 => 28
    case 17 => 75 case 18 => 234 case 19 => 150 case 20 => 148 case 21 => 23 case 22 => 9 case 23 => 202 case 24 => 162 case 25 => 68
    case 26 => 250 case 27 => 140 case 28 => 24 case _ => 151
  }

  function Row30(j: nat): nat {
    match j case 0 => 0 case 1 => 41 case 2 => 173 case 3 => 145 case 4 => 152 case 5 => 216 case 6 => 31 case 7 => 179
    case 8 => 182 case 9 => 50 case 10 => 48 case 11 => 110 case 12 => 86 case 13 => 239 case 14 => 96 case 15 => 222 case 16 => 125
    case 17 => 42 case 18 => 173 case 19 => 226 case 20 => 193 case 21 => 224 case 22 => 130 case 23 => 156 case 24 => 37 case 25 => 251
    case 26 => 216 case 27 => 238 case 28 => 40 case 29 => 192 case _ => 180
  }

  function Row(n: nat): nat -> nat {
    match n
    case 0 => Row0 case 1 => Row1 case 2 => Row2 case 3 => Row3 case 4 => Row4 case 5 => Row5 case 6 => Row6 case 7 => Row7
    case 8 => Row8 case 9 => Row9 case 10 => Row10 case 11 => Row11 case 12 => Row12 case 13 => Row13 case 14 => Row14 case 15 => Row15
    case 16 => Row16 case 17 => Row17 case 18 => Row18 case 19 => Row19 case 20 => Row20 case 21 => Row21 case 22 => Row22 case 23 => Row23
    case 24 => Row24 case 25 => Row25 case 26 => Row26 case 27 => Row27 case 28 => Row28 case 29 => Row29 case _ => Row30
  }

  predicate ExpRow0Is() {
    Exp(0) == 1 && Exp(1) == 2 && Exp(2) == 4 && Exp(3) == 8 && Exp(4) == 16 && Exp(5) == 32 && Exp(6) == 64 && Exp(7) == 128 &&
    Exp(8) == 29 && Exp(9) == 58 && Exp(10) == 116 && Exp(11) == 232 && Exp(12) == 205 && Exp(13) == 135 && Exp(14) == 19 && Exp(15) == 38
  }

  lemma ExpRow0Holds()
    ensures ExpRow0Is()
  {
  }

  predicate ExpRow1Is() {
    Exp(16) == 76 && Exp(17) == 152 && Exp(18) == 45 && Exp(19) == 90 && Exp(20) == 180 && Exp(21) == 117 && Exp(22) == 234 && Exp(23) == 201 &&
    Exp(24) == 143 && Exp(25) == 3 && Exp(26) == 6 && Exp(27) == 12 && Exp(28) == 24 && Exp(29) == 48 && Exp(30) == 96 && Exp(31) == 192
  }

  lemma ExpRow1Holds()
    ensures ExpRow1Is()
  {
  }

  predicate ExpRow2Is() {
    Exp(32) == 157 && Exp(33) == 39 && Exp(34) == 78 && Exp(35) == 156 && Exp(36) == 37 && Exp(37) == 74 && Exp(38) == 148 && Exp(39) == 53 &&
    Exp(40) == 106 && Exp(41) == 212 && Exp(42) == 181 && Exp(43) == 119 && Exp(44) == 238 && Exp(45) == 193 && Exp(46) == 159 && Exp(47) == 35
  }

  lemma ExpRow2Holds()
    ensures ExpRow2Is()
  {
  }

  predicate ExpRow3Is() {
    Exp(48) == 70 && Exp(49) == 140 && Exp(50) == 5 && Exp(51) == 10 && Exp(52) == 20 && Exp(53) == 40 && Exp(54) == 80 && Exp(55) == 160 &&
    Exp(56) == 93 && Exp(57) == 186 && Exp(58) == 105 && Exp(59) == 210 && Exp(60) == 185 && Exp(61) == 111 && Exp(62) == 222 && Exp(63) == 161
  }

  lemma ExpRow3Holds()
    ensures ExpRow3Is()
  {
  }

  predicate ExpRow4Is() {
    Exp(64) == 95 && Exp(65) == 190 && Exp(66) == 97 && Exp(67) == 194 && Exp(68) == 153 && Exp(69) == 47 && Exp(70) == 94 && Exp(71) == 188 &&
    Exp(72) == 101 && Exp(73) == 202 && Exp(74) == 137 && Exp(75) == 15 && Exp(76) == 30 && Exp(77) == 60 && Exp(78) == 120 && Exp(79) == 240
  }

  lemma ExpRow4Holds()
    ensures ExpRow4Is()
  {
  }

  predicate ExpRow5Is() {
    Exp(80) == 253 && Exp(81) == 231 && Exp(82) == 211 && Exp(83) == 187 && Exp(84) == 107 && Exp(85) == 214 && Exp(86) == 177 && Exp(87) == 127 &&
    Exp(88) == 254 && Exp(89) == 225 && Exp(90) == 223 && Exp(91) == 163 && Exp(92) == 91 && Exp(93) == 182 && Exp(94) == 113 && Exp(95) == 226
  }

  lemma ExpRow5Holds()
    ensures ExpRow5Is()
  {
  }

  predicate ExpRow6Is() {
    Exp(96) == 217 && Exp(97) == 175 && Exp(98) == 67 && Exp(99) == 134 && Exp(100) == 17 && Exp(101) == 34 && Exp(102) == 68 && Exp(103) == 136 &&
    Exp(104) == 13 && Exp(105) == 26 && Exp(106) == 52 && Exp(107) == 104 && Exp(108) == 208 && Exp(109) == 189 && Exp(110) == 103 && Exp(111) == 206
  }

  lemma ExpRow6Holds()
    ensures ExpRow6Is()
  {
  }

  predicate ExpRow7Is() {
    Exp(112) == 129 && Exp(113) == 31 && Exp(114) == 62 && Exp(115) == 124 && Exp(116) == 248 && Exp(117) == 237 && Exp(118) == 199 && Exp(119) == 147 &&
    Exp(120) == 59 && Exp(121) == 118 && Exp(122) == 236 && Exp(123) == 197 && Exp(124) == 151 && Exp(125) == 51 && Exp(126) == 102 && Exp(127) == 204
  }

  lemma ExpRow7Holds()
    ensures ExpRow7Is()
  {
  }

  predicate ExpRow8Is() {
    Exp(128) == 133 && Exp(129) == 23 && Exp(130) == 46 && Exp(131) == 92 && Exp(132) == 184 && Exp(133) == 109 && Exp(134) == 218 && Exp(135) == 169 &&
    Exp(136) == 79 && Exp(137) == 158 && Exp(138) == 33 && Exp(139) == 66 && Exp(140) == 132 && Exp(141) == 21 && Exp(142) == 42 && Exp(143) == 84
  }

  lemma ExpRow8Holds()
    ensures ExpRow8Is()
  {
  }

  predicate ExpRow9Is() {
    Exp(144) == 168 && Exp(145) == 77 && Exp(146) == 154 && Exp(147) == 41 && Exp(148) == 82 && Exp(149) == 164 && Exp(150) == 85 && Exp(151) == 170 &&
    Exp(152) == 73 && Exp(153) == 146 && Exp(154) == 57 && Exp(155) == 114 && Exp(156) == 228 && Exp(157) == 213 && Exp(158) == 183 && Exp(159) == 115
  }

  lemma ExpRow9Holds()
    ensures ExpRow9Is()
  {
  }

  predicate ExpRow10Is() {
    Exp(160) == 230 && Exp(161) == 209 && Exp(162) == 191 && Exp(163) == 99 && Exp(164) == 198 && Exp(165) == 145 && Exp(166) == 63 && Exp(167) == 126 &&
    Exp(168) == 252 && Exp(169) == 229 && Exp(170) == 215 && Exp(171) == 179 && Exp(172) == 123 && Exp(173) == 246 && Exp(174) == 241 && Exp(175) == 255
  }

  lemma ExpRow10Holds()
    ensures ExpRow10Is()
  {
  }

  predicate ExpRow11Is() {
    Exp(176) == 227 && Exp(177) == 219 && Exp(178) == 171 && Exp(179) == 75 && Exp(180) == 150 && Exp(181) == 49 && Exp(182) == 98 && Exp(183) == 196 &&
    Exp(184) == 149 && Exp(185) == 55 && Exp(186) == 110 && Exp(187) == 220 && Exp(188) == 165 && Exp(189) == 87 && Exp(190) == 174 && Exp(191) == 65
  }

  lemma ExpRow11Holds()
    ensures ExpRow11Is()
  {
  }

  predicate ExpRow12Is() {
    Exp(192) == 130 && Exp(193) == 25 && Exp(194) == 50 && Exp(195) == 100 && Exp(196) == 200 && Exp(197) == 141 && Exp(198) == 7 && Exp(199) == 14 &&
    Exp(200) == 28 && Exp(201) == 56 && Exp(202) == 112 && Exp(203) == 224 && Exp(204) == 221 && Exp(205) == 167 && Exp(206) == 83 && Exp(207) == 166
  }

  lemma ExpRow12Holds()
    ensures ExpRow12Is()
  {
  }

  predicate ExpRow13Is() {
    Exp(208) == 81 && Exp(209) == 162 && Exp(210) == 89 && Exp(211) == 178 && Exp(212) == 121 && Exp(213) == 242 && Exp(214) == 249 && Exp(215) == 239 &&
    Exp(216) == 195 && Exp(217) == 155 && Exp(218) == 43 && Exp(219) == 86 && Exp(220) == 172 && Exp(221) == 69 && Exp(222) == 138 && Exp(223) == 9
  }

  lemma ExpRow13Holds()
    ensures ExpRow13Is()
  {
  }

  predicate ExpRow14Is() {
    Exp(224) == 18 && Exp(225) == 36 && Exp(226) == 72 && Exp(227) == 144 && Exp(228) == 61 && Exp(229) == 122 && Exp(230) == 244 && Exp(231) == 245 &&
    Exp(232) == 247 && Exp(233) == 243 && Exp(234) == 251 && Exp(235) == 235 && Exp(236) == 203 && Exp(237) == 139 && Exp(238) == 11 && Exp(239) == 22
  }

  lemma ExpRow14Holds()
    ensures ExpRow14Is()
  {
  }

  predicate ExpRow15Is() {
    Exp(240) == 44 && Exp(241) == 88 && Exp(242) == 176 && Exp(243) == 125 && Exp(244) == 250 && Exp(245) == 233 && Exp(246) == 207 && Exp(247) == 131 &&
    Exp(248) == 27 && Exp(249) == 54 && Exp(250) == 108 && Exp(251) == 216 && Exp(252) == 173 && Exp(253) == 71 && Exp(254) == 142 && Exp(255) == 1
  }

  lemma ExpRow15Holds()
    ensures ExpRow15Is()
  {
  }

  lemma ExpValues()
    ensures ExpRow0Is() && ExpRow1Is() && ExpRow2Is() && ExpRow3Is() && ExpRow4Is() && ExpRow5Is() && ExpRow6Is() && ExpRow7Is()
    ensures ExpRow8Is() && ExpRow9Is() && ExpRow10Is() && ExpRow11Is() && ExpRow12Is() && ExpRow13Is() && ExpRow14Is() && ExpRow15Is()
  {
    hide *;
    ExpRow0Holds(); ExpRow1Holds(); ExpRow2Holds(); ExpRow3Holds(); ExpRow4Holds(); ExpRow5Holds(); ExpRow6Holds(); ExpRow7Holds();
    ExpRow8Holds(); ExpRow9Holds(); ExpRow10Holds(); ExpRow11Holds(); ExpRow12Holds(); ExpRow13Holds(); ExpRow14Holds(); ExpRow15Holds();
  }

  predicate ExpSum(a: nat, b: nat, c: nat) {
    a < 255 && b < 255 && c < 255 && Add(Exp(a), Exp(b)) == Exp(c)
  }

  function Wrap(e: nat): nat {
    if e < 255 then e else e - 255
  }

  /** The next row is this one times (x + the n-th power of the primitive element). */
  ghost predicate Follows(n: nat, row: nat -> nat, next: nat -> nat) {
    && next(0) == 0 && row(0) == 0 && row(n) < 255
    && next(n + 1) == Wrap(row(n) + n)
    && forall j :: 0 < j <= n ==> ExpSum(row(j), Wrap(row(j - 1) + n), next(j))
  }

  lemma Row1Follows()
    ensures Follows(0, Row0, Row1)
  {
    ExpValues();
    hide Exp;
  }

  lemma Row2Follows()
    ensures Follows(1, Row1, Row2)
  {
    ExpValues();
    hide Exp;
  }

  lemma Row3Follows()
    ensures Follows(2, Row2, Row3)
  {
    ExpValues();
    hide Exp;
  }

  lemma Row4Follows()
    ensures Follows(3, Row3, Row4)
  {
    ExpValues();
    hide Exp;
  }

  lemma Row5Follows()
    ensures Follows(4, Row4, Row5)
  {
    ExpValues();
    hide Exp;
  }

  lemma Row6Follows()
    ensures Follows(5, Row5, Row6)
  {
    ExpValues();
    hide Exp;
  }

  lemma Row7Follows()
    ensures Follows(6, Row6, Row7)
  {
    ExpValues();
    hide Exp;
  }

  lemma Row8Follows()
    ensures Follows(7, Row7, Row8)
  {
    ExpValues();
    hide Exp;
  }

  lemma Row9Follows()
    ensures Follows(8, Row8, Row9)
  {
    ExpValues();
    hide Exp;
  }

  lemma Row10Follows()
    ensures Follows(9, Row9, Row10)
  {
    ExpValues();
    hide Exp;
  }

  lemma Row11Follows()
    ensures Follows(10, Row10, Row11)
  {
    ExpValues();
    hide Exp;
  }

  lemma Row12Follows()
    ensures Follows(11, Row11, Row12)
  {
    ExpValues();
    hide Exp;
  }

  lemma Row13Follows()
    ensures Follows(12, Row12, Row13)
  {
    ExpValues();
    hide Exp;
  }

  lemma Row14Follows()
    ensures Follows(13, Row13, Row14)
  {
    ExpValues();
    hide Exp;
  }

  lemma Row15Follows()
    ensures Follows(14, Row14, Row15)
  {
    ExpValues();
    hide Exp;
  }

  lemma Row16Follows()
    ensures Follows(15, Row15, Row16)
  {
    ExpValues();
    hide Exp;
  }

  lemma Row17Follows()
    ensures Follows(16, Row16, Row17)
  {
    ExpValues();
    hide Exp;
  }

  lemma Row18Follows()
    ensures Follows(17, Row17, Row18)
  {
    ExpValues();
    hide Exp;
  }

  lemma Row19Follows()
    ensures Follows(18, Row18, Row19)
  {
    ExpValues();
    hide Exp;
  }

  lemma Row20Follows()
    ensures Follows(19, Row19, Row20)
  {
    ExpValues();
    hide Exp;
  }

  lemma Row21Follows()
    ensures Follows(20, Row20, Row21)
  {
    ExpValues();
    hide Exp;
  }

  lemma Row22Follows()
    ensures Follows(21, Row21, Row22)
  {
    ExpValues();
    hide Exp;
  }

  lemma Row23Follows()
    ensures Follows(22, Row22, Row23)
  {
    ExpValues();
    hide Exp;
  }

  lemma Row24Follows()
    ensures Follows(23, Row23, Row24)
  {
    ExpValues();
    hide Exp;
  }

  lemma Row25Follows()
    ensures Follows(24, Row24, Row25)
  {
    ExpValues();
    hide Exp;
  }

  lemma Row26Follows()
    ensures Follows(25, Row25, Row26)
  {
    ExpValues();
    hide Exp;
  }

  lemma Row27Follows()
    ensures Follows(26, Row26, Row27)
  {
    ExpValues();
    hide Exp;
  }

  lemma Row28Follows()
    ensures Follows(27, Row27, Row28)
  {
    ExpValues();
    hide Exp;
  }

  lemma Row29Follows()
    ensures Follows(28, Row28, Row29)
  {
    ExpValues();
    hide Exp;
  }

  lemma Row30Follows()
    ensures Follows(29, Row29, Row30)
  {
    ExpValues();
    hide Exp;
  }

  lemma RowsFollow(n: nat)
    requires n < 30
    ensures Follows(n, Row(n), Row(n + 1))
  {
    hide Follows;
    match n
    case 0 => Row1Follows(); case 1 => Row2Follows(); case 2 => Row3Follows(); case 3 => Row4Follows(); case 4 => Row5Follows();
    case 5 => Row6Follows(); case 6 => Row7Follows(); case 7 => Row8Follows(); case 8 => Row9Follows(); case 9 => Row10Follows();
    case 10 => Row11Follows(); case 11 => Row12Follows(); case 12 => Row13Follows(); case 13 => Row14Follows(); case 14 => Row15Follows();
    case 15 => Row16Follows(); case 16 => Row17Follows(); case 17 => Row18Follows(); case 18 => Row19Follows(); case 19 => Row20Follows();
    case 20 => Row21Follows(); case 21 => Row22Follows(); case 22 => Row23Follows(); case 23 => Row24Follows(); case 24 => Row25Follows();
    case 25 => Row26Follows(); case 26 => Row27Follows(); case 27 => Row28Follows(); case 28 => Row29Follows(); case _ => Row30Follows();
  }
}
