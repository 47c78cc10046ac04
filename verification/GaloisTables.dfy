/** The exponent and logarithm tables of GF(256) = GF(2)[x] / (x^8 + x^4 + x^3 + x^2 + 1), and that they fit together. */
module GaloisTables {

  /** Multiplication by the primitive element x. */
  function Xtime(a: bv8): bv8 {
    (a << 1) ^ (if a & 0x80 != 0 then 0x1d else 0)
  }

  // The exponent table, 16 entries a row.

  function ExpRow0(j: nat): bv8
    requires j < 16
  {
    match j
    case 0 => 1 case 1 => 2 case 2 => 4 case 3 => 8 case 4 => 16 case 5 => 32 case 6 => 64 case 7 => 128
    case 8 => 29 case 9 => 58 case 10 => 116 case 11 => 232 case 12 => 205 case 13 => 135 case 14 => 19 case _ => 38
  }

  function ExpRow1(j: nat): bv8
    requires j < 16
  {
    match j
    case 0 => 76 case 1 => 152 case 2 => 45 case 3 => 90 case 4 => 180 case 5 => 117 case 6 => 234 case 7 => 201
    case 8 => 143 case 9 => 3 case 10 => 6 case 11 => 12 case 12 => 24 case 13 => 48 case 14 => 96 case _ => 192
  }

  function ExpRow2(j: nat): bv8
    requires j < 16
  {
    match j
    case 0 => 157 case 1 => 39 case 2 => 78 case 3 => 156 case 4 => 37 case 5 => 74 case 6 => 148 case 7 => 53
    case 8 => 106 case 9 => 212 case 10 => 181 case 11 => 119 case 12 => 238 case 13 => 193 case 14 => 159 case _ => 35
  }

  function ExpRow3(j: nat): bv8
    requires j < 16
  {
    match j
    case 0 => 70 case 1 => 140 case 2 => 5 case 3 => 10 case 4 => 20 case 5 => 40 case 6 => 80 case 7 => 160
    case 8 => 93 case 9 => 186 case 10 => 105 case 11 => 210 case 12 => 185 case 13 => 111 case 14 => 222 case _ => 161
  }

  function ExpRow4(j: nat): bv8
    requires j < 16
  {
    match j
    case 0 => 95 case 1 => 190 case 2 => 97 case 3 => 194 case 4 => 153 case 5 => 47 case 6 => 94 case 7 => 188
    case 8 => 101 case 9 => 202 case 10 => 137 case 11 => 15 case 12 => 30 case 13 => 60 case 14 => 120 case _ => 240
  }

  function ExpRow5(j: nat): bv8
    requires j < 16
  {
    match j
    case 0 => 253 case 1 => 231 case 2 => 211 case 3 => 187 case 4 => 107 case 5 => 214 case 6 => 177 case 7 => 127
    case 8 => 254 case 9 => 225 case 10 => 223 case 11 => 163 case 12 => 91 case 13 => 182 case 14 => 113 case _ => 226
  }

  function ExpRow6(j: nat): bv8
    requires j < 16
  {
    match j
    case 0 => 217 case 1 => 175 case 2 => 67 case 3 => 134 case 4 => 17 case 5 => 34 case 6 => 68 case 7 => 136
    case 8 => 13 case 9 => 26 case 10 => 52 case 11 => 104 case 12 => 208 case 13 => 189 case 14 => 103 case _ => 206
  }

  function ExpRow7(j: nat): bv8
    requires j < 16
  {
    match j
    case 0 => 129 case 1 => 31 case 2 => 62 case 3 => 124 case 4 => 248 case 5 => 237 case 6 => 199 case 7 => 147
    case 8 => 59 case 9 => 118 case 10 => 236 case 11 => 197 case 12 => 151 case 13 => 51 case 14 => 102 case _ => 204
  }

  function ExpRow8(j: nat): bv8
    requires j < 16
  {
    match j
    case 0 => 133 case 1 => 23 case 2 => 46 case 3 => 92 case 4 => 184 case 5 => 109 case 6 => 218 case 7 => 169
    case 8 => 79 case 9 => 158 case 10 => 33 case 11 => 66 case 12 => 132 case 13 => 21 case 14 => 42 case _ => 84
  }

  function ExpRow9(j: nat): bv8
    requires j < 16
  {
    match j
    case 0 => 168 case 1 => 77 case 2 => 154 case 3 => 41 case 4 => 82 case 5 => 164 case 6 => 85 case 7 => 170
    case 8 => 73 case 9 => 146 case 10 => 57 case 11 => 114 case 12 => 228 case 13 => 213 case 14 => 183 case _ => 115
  }

  function ExpRowA(j: nat): bv8
    requires j < 16
  {
    match j
    case 0 => 230 case 1 => 209 case 2 => 191 case 3 => 99 case 4 => 198 case 5 => 145 case 6 => 63 case 7 => 126
    case 8 => 252 case 9 => 229 case 10 => 215 case 11 => 179 case 12 => 123 case 13 => 246 case 14 => 241 case _ => 255
  }

  function ExpRowB(j: nat): bv8
    requires j < 16
  {
    match j
    case 0 => 227 case 1 => 219 case 2 => 171 case 3 => 75 case 4 => 150 case 5 => 49 case 6 => 98 case 7 => 196
    case 8 => 149 case 9 => 55 case 10 => 110 case 11 => 220 case 12 => 165 case 13 => 87 case 14 => 174 case _ => 65
  }

  function ExpRowC(j: nat): bv8
    requires j < 16
  {
    match j
    case 0 => 130 case 1 => 25 case 2 => 50 case 3 => 100 case 4 => 200 case 5 => 141 case 6 => 7 case 7 => 14
    case 8 => 28 case 9 => 56 case 10 => 112 case 11 => 224 case 12 => 221 case 13 => 167 case 14 => 83 case _ => 166
  }

  function ExpRowD(j: nat): bv8
    requires j < 16
  {
    match j
    case 0 => 81 case 1 => 162 case 2 => 89 case 3 => 178 case 4 => 121 case 5 => 242 case 6 => 249 case 7 => 239
    case 8 => 195 case 9 => 155 case 10 => 43 case 11 => 86 case 12 => 172 case 13 => 69 case 14 => 138 case _ => 9
  }

  function ExpRowE(j: nat): bv8
    requires j < 16
  {
    match j
    case 0 => 18 case 1 => 36 case 2 => 72 case 3 => 144 case 4 => 61 case 5 => 122 case 6 => 244 case 7 => 245
    case 8 => 247 case 9 => 243 case 10 => 251 case 11 => 235 case 12 => 203 case 13 => 139 case 14 => 11 case _ => 22
  }

  function ExpRowF(j: nat): bv8
    requires j < 16
  {
    match j
    case 0 => 44 case 1 => 88 case 2 => 176 case 3 => 125 case 4 => 250 case 5 => 233 case 6 => 207 case 7 => 131
    case 8 => 27 case 9 => 54 case 10 => 108 case 11 => 216 case 12 => 173 case 13 => 71 case 14 => 142 case _ => 1
  }

  /** `qr_exp2fac` */
  function Exp(k: nat): bv8
    requires k < 256
  {
    if k < 16 then ExpRow0(k - 0) else if k < 32 then ExpRow1(k - 16) else if k < 48 then ExpRow2(k - 32) else if k < 64 then ExpRow3(k - 48) else
    if k < 80 then ExpRow4(k - 64) else if k < 96 then ExpRow5(k - 80) else if k < 112 then ExpRow6(k - 96) else if k < 128 then ExpRow7(k - 112) else
    if k < 144 then ExpRow8(k - 128) else if k < 160 then ExpRow9(k - 144) else if k < 176 then ExpRowA(k - 160) else if k < 192 then ExpRowB(k - 176) else
    if k < 208 then ExpRowC(k - 192) else if k < 224 then ExpRowD(k - 208) else if k < 240 then ExpRowE(k - 224) else ExpRowF(k - 240)
  }

  // The logarithm table; the logarithm of 0 is not available and never used.

  function LogRow0(a: bv8): nat
  {
    if a == 0 then 0 else if a == 1 then 0 else if a == 2 then 1 else if a == 3 then 25 else
    if a == 4 then 2 else if a == 5 then 50 else if a == 6 then 26 else if a == 7 then 198 else
    if a == 8 then 3 else if a == 9 then 223 else if a == 10 then 51 else if a == 11 then 238 else
    if a == 12 then 27 else if a == 13 then 104 else if a == 14 then 199 else 75
  }

  function LogRow1(a: bv8): nat
  {
    if a == 16 then 4 else if a == 17 then 100 else if a == 18 then 224 else if a == 19 then 14 else
    if a == 20 then 52 else if a == 21 then 141 else if a == 22 then 239 else if a == 23 then 129 else
    if a == 24 then 28 else if a == 25 then 193 else if a == 26 then 105 else if a == 27 then 248 else
    if a == 28 then 200 else if a == 29 then 8 else if a == 30 then 76 else 113
  }

  function LogRow2(a: bv8): nat
  {
    if a == 32 then 5 else if a == 33 then 138 else if a == 34 then 101 else if a == 35 then 47 else
    if a == 36 then 225 else if a == 37 then 36 else if a == 38 then 15 else if a == 39 then 33 else
    if a == 40 then 53 else if a == 41 then 147 else if a == 42 then 142 else if a == 43 then 218 else
    if a == 44 then 240 else if a == 45 then 18 else if a == 46 then 130 else 69
  }

  function LogRow3(a: bv8): nat
  {
    if a == 48 then 29 else if a == 49 then 181 else if a == 50 then 194 else if a == 51 then 125 else
    if a == 52 then 106 else if a == 53 then 39 else if a == 54 then 249 else if a == 55 then 185 else
    if a == 56 then 201 else if a == 57 then 154 else if a == 58 then 9 else if a == 59 then 120 else
    if a == 60 then 77 else if a == 61 then 228 else if a == 62 then 114 else 166
  }

  function LogRow4(a: bv8): nat
  {
    if a == 64 then 6 else if a == 65 then 191 else if a == 66 then 139 else if a == 67 then 98 else
    if a == 68 then 102 else if a == 69 then 221 else if a == 70 then 48 else if a == 71 then 253 else
    if a == 72 then 226 else if a == 73 then 152 else if a == 74 then 37 else if a == 75 then 179 else
    if a == 76 then 16 else if a == 77 then 145 else if a == 78 then 34 else 136
  }

  function LogRow5(a: bv8): nat
  {
    if a == 80 then 54 else if a == 81 then 208 else if a == 82 then 148 else if a == 83 then 206 else
    if a == 84 then 143 else if a == 85 then 150 else if a == 86 then 219 else if a == 87 then 189 else
    if a == 88 then 241 else if a == 89 then 210 else if a == 90 then 19 else if a == 91 then 92 else
    if a == 92 then 131 else if a == 93 then 56 else if a == 94 then 70 else 64
  }

  function LogRow6(a: bv8): nat
  {
    if a == 96 then 30 else if a == 97 then 66 else if a == 98 then 182 else if a == 99 then 163 else
    if a == 100 then 195 else if a == 101 then 72 else if a == 102 then 126 else if a == 103 then 110 else
    if a == 104 then 107 else if a == 105 then 58 else if a == 106 then 40 else if a == 107 then 84 else
    if a == 108 then 250 else if a == 109 then 133 else if a == 110 then 186 else 61
  }

  function LogRow7(a: bv8): nat
  {
    if a == 112 then 202 else if a == 113 then 94 else if a == 114 then 155 else if a == 115 then 159 else
    if a == 116 then 10 else if a == 117 then 21 else if a == 118 then 121 else if a == 119 then 43 else
    if a == 120 then 78 else if a == 121 then 212 else if a == 122 then 229 else if a == 123 then 172 else
    if a == 124 then 115 else if a == 125 then 243 else if a == 126 then 167 else 87
  }

  function LogRow8(a: bv8): nat
  {
    if a == 128 then 7 else if a == 129 then 112 else if a == 130 then 192 else if a == 131 then 247 else
    if a == 132 then 140 else if a == 133 then 128 else if a == 134 then 99 else if a == 135 then 13 else
    if a == 136 then 103 else if a == 137 then 74 else if a == 138 then 222 else if a == 139 then 237 else
    if a == 140 then 49 else if a == 141 then 197 else if a == 142 then 254 else 24
  }

  function LogRow9(a: bv8): nat
  {
    if a == 144 then 227 else if a == 145 then 165 else if a == 146 then 153 else if a == 147 then 119 else
    if a == 148 then 38 else if a == 149 then 184 else if a == 150 then 180 else if a == 151 then 124 else
    if a == 152 then 17 else if a == 153 then 68 else if a == 154 then 146 else if a == 155 then 217 else
    if a == 156 then 35 else if a == 157 then 32 else if a == 158 then 137 else 46
  }

  function LogRowA(a: bv8): nat
  {
    if a == 160 then 55 else if a == 161 then 63 else if a == 162 then 209 else if a == 163 then 91 else
    if a == 164 then 149 else if a == 165 then 188 else if a == 166 then 207 else if a == 167 then 205 else
    if a == 168 then 144 else if a == 169 then 135 else if a == 170 then 151 else if a == 171 then 178 else
    if a == 172 then 220 else if a == 173 then 252 else if a == 174 then 190 else 97
  }

  function LogRowB(a: bv8): nat
  {
    if a == 176 then 242 else if a == 177 then 86 else if a == 178 then 211 else if a == 179 then 171 else
    if a == 180 then 20 else if a == 181 then 42 else if a == 182 then 93 else if a == 183 then 158 else
    if a == 184 then 132 else if a == 185 then 60 else if a == 186 then 57 else if a == 187 then 83 else
    if a == 188 then 71 else if a == 189 then 109 else if a == 190 then 65 else 162
  }

  function LogRowC(a: bv8): nat
  {
    if a == 192 then 31 else if a == 193 then 45 else if a == 194 then 67 else if a == 195 then 216 else
    if a == 196 then 183 else if a == 197 then 123 else if a == 198 then 164 else if a == 199 then 118 else
    if a == 200 then 196 else if a == 201 then 23 else if a == 202 then 73 else if a == 203 then 236 else
    if a == 204 then 127 else if a == 205 then 12 else if a == 206 then 111 else 246
  }

  function LogRowD(a: bv8): nat
  {
    if a == 208 then 108 else if a == 209 then 161 else if a == 210 then 59 else if a == 211 then 82 else
    if a == 212 then 41 else if a == 213 then 157 else if a == 214 then 85 else if a == 215 then 170 else
    if a == 216 then 251 else if a == 217 then 96 else if a == 218 then 134 else if a == 219 then 177 else
    if a == 220 then 187 else if a == 221 then 204 else if a == 222 then 62 else 90
  }

  function LogRowE(a: bv8): nat
  {
    if a == 224 then 203 else if a == 225 then 89 else if a == 226 then 95 else if a == 227 then 176 else
    if a == 228 then 156 else if a == 229 then 169 else if a == 230 then 160 else if a == 231 then 81 else
    if a == 232 then 11 else if a == 233 then 245 else if a == 234 then 22 else if a == 235 then 235 else
    if a == 236 then 122 else if a == 237 then 117 else if a == 238 then 44 else 215
  }

  function LogRowF(a: bv8): nat
  {
    if a == 240 then 79 else if a == 241 then 174 else if a == 242 then 213 else if a == 243 then 233 else
    if a == 244 then 230 else if a == 245 then 231 else if a == 246 then 173 else if a == 247 then 232 else
    if a == 248 then 116 else if a == 249 then 214 else if a == 250 then 244 else if a == 251 then 234 else
    if a == 252 then 168 else if a == 253 then 80 else if a == 254 then 88 else 175
  }

  /** `qr_fac2exp` */
  function Log(a: bv8): nat {
    if a < 16 then LogRow0(a) else if a < 32 then LogRow1(a) else if a < 48 then LogRow2(a) else if a < 64 then LogRow3(a) else
    if a < 80 then LogRow4(a) else if a < 96 then LogRow5(a) else if a < 112 then LogRow6(a) else if a < 128 then LogRow7(a) else
    if a < 144 then LogRow8(a) else if a < 160 then LogRow9(a) else if a < 176 then LogRowA(a) else if a < 192 then LogRowB(a) else
    if a < 208 then LogRowC(a) else if a < 224 then LogRowD(a) else if a < 240 then LogRowE(a) else LogRowF(a)
  }

  // Entry k + 1 of the exponent table is x times entry k.

  lemma ExpStep0(k: nat)
    requires 0 <= k < 16
    ensures Exp(k + 1) == Xtime(Exp(k))
  {
  }

  lemma ExpStep1(k: nat)
    requires 16 <= k < 32
    ensures Exp(k + 1) == Xtime(Exp(k))
  {
  }

  lemma ExpStep2(k: nat)
    requires 32 <= k < 48
    ensures Exp(k + 1) == Xtime(Exp(k))
  {
  }

  lemma ExpStep3(k: nat)
    requires 48 <= k < 64
    ensures Exp(k + 1) == Xtime(Exp(k))
  {
  }

  lemma ExpStep4(k: nat)
    requires 64 <= k < 80
    ensures Exp(k + 1) == Xtime(Exp(k))
  {
  }

  lemma ExpStep5(k: nat)
    requires 80 <= k < 96
    ensures Exp(k + 1) == Xtime(Exp(k))
  {
  }

  lemma ExpStep6(k: nat)
    requires 96 <= k < 112
    ensures Exp(k + 1) == Xtime(Exp(k))
  {
  }

  lemma ExpStep7(k: nat)
    requires 112 <= k < 128
    ensures Exp(k + 1) == Xtime(Exp(k))
  {
  }

  lemma ExpStep8(k: nat)
    requires 128 <= k < 144
    ensures Exp(k + 1) == Xtime(Exp(k))
  {
  }

  lemma ExpStep9(k: nat)
    requires 144 <= k < 160
    ensures Exp(k + 1) == Xtime(Exp(k))
  {
  }

  lemma ExpStep10(k: nat)
    requires 160 <= k < 176
    ensures Exp(k + 1) == Xtime(Exp(k))
  {
  }

  lemma ExpStep11(k: nat)
    requires 176 <= k < 192
    ensures Exp(k + 1) == Xtime(Exp(k))
  {
  }

  lemma ExpStep12(k: nat)
    requires 192 <= k < 208
    ensures Exp(k + 1) == Xtime(Exp(k))
  {
  }

  lemma ExpStep13(k: nat)
    requires 208 <= k < 224
    ensures Exp(k + 1) == Xtime(Exp(k))
  {
  }

  lemma ExpStep14(k: nat)
    requires 224 <= k < 240
    ensures Exp(k + 1) == Xtime(Exp(k))
  {
  }

  lemma ExpStep15(k: nat)
    requires 240 <= k < 255
    ensures Exp(k + 1) == Xtime(Exp(k))
  {
  }

  lemma ExpStep(k: nat)
    requires k < 255
    ensures Exp(k + 1) == Xtime(Exp(k))
  {
    if k < 16 { ExpStep0(k); } else if k < 32 { ExpStep1(k); } else if k < 48 { ExpStep2(k); } else if k < 64 { ExpStep3(k); }
    else if k < 80 { ExpStep4(k); } else if k < 96 { ExpStep5(k); } else if k < 112 { ExpStep6(k); } else if k < 128 { ExpStep7(k); }
    else if k < 144 { ExpStep8(k); } else if k < 160 { ExpStep9(k); } else if k < 176 { ExpStep10(k); } else if k < 192 { ExpStep11(k); }
    else if k < 208 { ExpStep12(k); } else if k < 224 { ExpStep13(k); } else if k < 240 { ExpStep14(k); } else { ExpStep15(k); }
  }

  // The logarithm table inverts it.

  lemma LogInverse0(a: bv8)
    requires a <= 15
    ensures a != 0 ==> Log(a) < 255 && Exp(Log(a)) == a
  {
    if a == 0 {} else if a == 1 {} else if a == 2 {} else if a == 3 {} else if a == 4 {} else if a == 5 {} else if a == 6 {} else if a == 7 {}
    else if a == 8 {} else if a == 9 {} else if a == 10 {} else if a == 11 {} else if a == 12 {} else if a == 13 {} else if a == 14 {} else { assert a == 15; }
  }

  lemma LogInverse1(a: bv8)
    requires 16 <= a <= 31
    ensures Log(a) < 255 && Exp(Log(a)) == a
  {
    if a == 16 {} else if a == 17 {} else if a == 18 {} else if a == 19 {} else if a == 20 {} else if a == 21 {} else if a == 22 {} else if a == 23 {}
    else if a == 24 {} else if a == 25 {} else if a == 26 {} else if a == 27 {} else if a == 28 {} else if a == 29 {} else if a == 30 {} else { assert a == 31; }
  }

  lemma LogInverse2(a: bv8)
    requires 32 <= a <= 47
    ensures Log(a) < 255 && Exp(Log(a)) == a
  {
    if a == 32 {} else if a == 33 {} else if a == 34 {} else if a == 35 {} else if a == 36 {} else if a == 37 {} else if a == 38 {} else if a == 39 {}
    else if a == 40 {} else if a == 41 {} else if a == 42 {} else if a == 43 {} else if a == 44 {} else if a == 45 {} else if a == 46 {} else { assert a == 47; }
  }

  lemma LogInverse3(a: bv8)
    requires 48 <= a <= 63
    ensures Log(a) < 255 && Exp(Log(a)) == a
  {
    if a == 48 {} else if a == 49 {} else if a == 50 {} else if a == 51 {} else if a == 52 {} else if a == 53 {} else if a == 54 {} else if a == 55 {}
    else if a == 56 {} else if a == 57 {} else if a == 58 {} else if a == 59 {} else if a == 60 {} else if a == 61 {} else if a == 62 {} else { assert a == 63; }
  }

  lemma LogInverse4(a: bv8)
    requires 64 <= a <= 79
    ensures Log(a) < 255 && Exp(Log(a)) == a
  {
    if a == 64 {} else if a == 65 {} else if a == 66 {} else if a == 67 {} else if a == 68 {} else if a == 69 {} else if a == 70 {} else if a == 71 {}
    else if a == 72 {} else if a == 73 {} else if a == 74 {} else if a == 75 {} else if a == 76 {} else if a == 77 {} else if a == 78 {} else { assert a == 79; }
  }

  lemma LogInverse5(a: bv8)
    requires 80 <= a <= 95
    ensures Log(a) < 255 && Exp(Log(a)) == a
  {
    if a == 80 {} else if a == 81 {} else if a == 82 {} else if a == 83 {} else if a == 84 {} else if a == 85 {} else if a == 86 {} else if a == 87 {}
    else if a == 88 {} else if a == 89 {} else if a == 90 {} else if a == 91 {} else if a == 92 {} else if a == 93 {} else if a == 94 {} else { assert a == 95; }
  }

  lemma LogInverse6(a: bv8)
    requires 96 <= a <= 111
    ensures Log(a) < 255 && Exp(Log(a)) == a
  {
    if a == 96 {} else if a == 97 {} else if a == 98 {} else if a == 99 {} else if a == 100 {} else if a == 101 {} else if a == 102 {} else if a == 103 {}
    else if a == 104 {} else if a == 105 {} else if a == 106 {} else if a == 107 {} else if a == 108 {} else if a == 109 {} else if a == 110 {} else { assert a == 111; }
  }

  lemma LogInverse7(a: bv8)
    requires 112 <= a <= 127
    ensures Log(a) < 255 && Exp(Log(a)) == a
  {
    if a == 112 {} else if a == 113 {} else if a == 114 {} else if a == 115 {} else if a == 116 {} else if a == 117 {} else if a == 118 {} else if a == 119 {}
    else if a == 120 {} else if a == 121 {} else if a == 122 {} else if a == 123 {} else if a == 124 {} else if a == 125 {} else if a == 126 {} else { assert a == 127; }
  }

  lemma LogInverse8(a: bv8)
    requires 128 <= a <= 143
    ensures Log(a) < 255 && Exp(Log(a)) == a
  {
    if a == 128 {} else if a == 129 {} else if a == 130 {} else if a == 131 {} else if a == 132 {} else if a == 133 {} else if a == 134 {} else if a == 135 {}
    else if a == 136 {} else if a == 137 {} else if a == 138 {} else if a == 139 {} else if a == 140 {} else if a == 141 {} else if a == 142 {} else { assert a == 143; }
  }

  lemma LogInverse9(a: bv8)
    requires 144 <= a <= 159
    ensures Log(a) < 255 && Exp(Log(a)) == a
  {
    if a == 144 {} else if a == 145 {} else if a == 146 {} else if a == 147 {} else if a == 148 {} else if a == 149 {} else if a == 150 {} else if a == 151 {}
    else if a == 152 {} else if a == 153 {} else if a == 154 {} else if a == 155 {} else if a == 156 {} else if a == 157 {} else if a == 158 {} else { assert a == 159; }
  }

  lemma LogInverse10(a: bv8)
    requires 160 <= a <= 175
    ensures Log(a) < 255 && Exp(Log(a)) == a
  {
    if a == 160 {} else if a == 161 {} else if a == 162 {} else if a == 163 {} else if a == 164 {} else if a == 165 {} else if a == 166 {} else if a == 167 {}
    else if a == 168 {} else if a == 169 {} else if a == 170 {} else if a == 171 {} else if a == 172 {} else if a == 173 {} else if a == 174 {} else { assert a == 175; }
  }

  lemma LogInverse11(a: bv8)
    requires 176 <= a <= 191
    ensures Log(a) < 255 && Exp(Log(a)) == a
  {
    if a == 176 {} else if a == 177 {} else if a == 178 {} else if a == 179 {} else if a == 180 {} else if a == 181 {} else if a == 182 {} else if a == 183 {}
    else if a == 184 {} else if a == 185 {} else if a == 186 {} else if a == 187 {} else if a == 188 {} else if a == 189 {} else if a == 190 {} else { assert a == 191; }
  }

  lemma LogInverse12(a: bv8)
    requires 192 <= a <= 207
    ensures Log(a) < 255 && Exp(Log(a)) == a
  {
    if a == 192 {} else if a == 193 {} else if a == 194 {} else if a == 195 {} else if a == 196 {} else if a == 197 {} else if a == 198 {} else if a == 199 {}
    else if a == 200 {} else if a == 201 {} else if a == 202 {} else if a == 203 {} else if a == 204 {} else if a == 205 {} else if a == 206 {} else { assert a == 207; }
  }

  lemma LogInverse13(a: bv8)
    requires 208 <= a <= 223
    ensures Log(a) < 255 && Exp(Log(a)) == a
  {
    if a == 208 {} else if a == 209 {} else if a == 210 {} else if a == 211 {} else if a == 212 {} else if a == 213 {} else if a == 214 {} else if a == 215 {}
    else if a == 216 {} else if a == 217 {} else if a == 218 {} else if a == 219 {} else if a == 220 {} else if a == 221 {} else if a == 222 {} else { assert a == 223; }
  }

  lemma LogInverse14(a: bv8)
    requires 224 <= a <= 239
    ensures Log(a) < 255 && Exp(Log(a)) == a
  {
    if a == 224 {} else if a == 225 {} else if a == 226 {} else if a == 227 {} else if a == 228 {} else if a == 229 {} else if a == 230 {} else if a == 231 {}
    else if a == 232 {} else if a == 233 {} else if a == 234 {} else if a == 235 {} else if a == 236 {} else if a == 237 {} else if a == 238 {} else { assert a == 239; }
  }

  lemma LogInverse15(a: bv8)
    requires 240 <= a <= 255
    ensures Log(a) < 255 && Exp(Log(a)) == a
  {
    if a == 240 {} else if a == 241 {} else if a == 242 {} else if a == 243 {} else if a == 244 {} else if a == 245 {} else if a == 246 {} else if a == 247 {}
    else if a == 248 {} else if a == 249 {} else if a == 250 {} else if a == 251 {} else if a == 252 {} else if a == 253 {} else if a == 254 {} else { assert a == 255; }
  }

  lemma LogInverse(a: bv8)
    requires a != 0
    ensures Log(a) < 255 && Exp(Log(a)) == a
  {
    if a < 16 { LogInverse0(a); } else if a < 32 { LogInverse1(a); } else if a < 48 { LogInverse2(a); } else if a < 64 { LogInverse3(a); }
    else if a < 80 { LogInverse4(a); } else if a < 96 { LogInverse5(a); } else if a < 112 { LogInverse6(a); } else if a < 128 { LogInverse7(a); }
    else if a < 144 { LogInverse8(a); } else if a < 160 { LogInverse9(a); } else if a < 176 { LogInverse10(a); } else if a < 192 { LogInverse11(a); }
    else if a < 208 { LogInverse12(a); } else if a < 224 { LogInverse13(a); } else if a < 240 { LogInverse14(a); } else { LogInverse15(a); }
  }

}
